/**
 * Splitting text as Rust's `str::split` does: at every non-overlapping
 * occurrence of a separator string, scanning left to right, or at every
 * character of a separator set.  n separators give n + 1 pieces, empty
 * pieces included.
 */
module Text {

  predicate StartsWith(s: string, prefix: string)
  {
    |prefix| <= |s| && s[..|prefix|] == prefix
  }

  /** `s.contains(t)`: t occurs somewhere in s. */
  predicate Contains(s: string, t: string)
  {
    exists i :: 0 <= i <= |s| && StartsWith(s[i..], t)
  }

  /** `s.split(sep)` for a non-empty separator string. */
  function Split(s: string, sep: string): (pieces: seq<string>)
    requires sep != []
    ensures |pieces| >= 1
    decreases |s|
  {
    if s == [] then [[]]
    else if StartsWith(s, sep) then [[]] + Split(s[|sep|..], sep)
    else
      var tail := Split(s[1..], sep);
      [[s[0]] + tail[0]] + tail[1..]
  }

  /** The pieces joined with the separator between them. */
  function Join(pieces: seq<string>, sep: string): string
    requires |pieces| >= 1
  {
    if |pieces| == 1 then pieces[0] else pieces[0] + sep + Join(pieces[1..], sep)
  }

  /** Splitting loses nothing: joining the pieces gives the text back. */
  lemma {:induction false} SplitJoin(s: string, sep: string)
    requires sep != []
    ensures Join(Split(s, sep), sep) == s
    decreases |s|
  {
    if s != [] {
      if StartsWith(s, sep) {
        var rest := s[|sep|..];
        SplitJoin(rest, sep);
        JoinCons([], Split(rest, sep), sep);
        assert [] + sep + rest == s;
      } else {
        SplitJoin(s[1..], sep);
        JoinGlue(s[0], Split(s[1..], sep), sep);
        assert [s[0]] + s[1..] == s;
      }
    }
  }

  lemma JoinCons(p: string, rest: seq<string>, sep: string)
    requires |rest| >= 1
    ensures Join([p] + rest, sep) == p + sep + Join(rest, sep)
  {
    assert ([p] + rest)[1..] == rest;
  }

  /** Putting a character in front of the first piece puts it in front of the joined text. */
  lemma JoinGlue(c: char, tail: seq<string>, sep: string)
    requires |tail| >= 1
    ensures Join([[c] + tail[0]] + tail[1..], sep) == [c] + Join(tail, sep)
  {
    var pieces := [[c] + tail[0]] + tail[1..];
    if |tail| > 1 {
      assert pieces[1..] == tail[1..];
    }
  }

  /** Text free of the separator's first character is one piece. */
  lemma {:induction false} SplitWhole(p: string, sep: string)
    requires sep != [] && sep[0] !in p
    ensures Split(p, sep) == [p]
    decreases |p|
  {
    if p != [] {
      assert !StartsWith(p, sep) by {
        if |sep| <= |p| {
          assert p[..|sep|][0] == p[0];
        }
      }
      SplitWhole(p[1..], sep);
      assert [p[0]] + p[1..] == p;
    }
  }

  /** A piece free of the separator's first character, then the separator, splits off as the first piece. */
  lemma {:induction false} SplitFirst(p: string, rest: string, sep: string)
    requires sep != [] && sep[0] !in p
    ensures Split(p + sep + rest, sep) == [p] + Split(rest, sep)
    decreases |p|
  {
    var s := p + sep + rest;
    if p == [] {
      assert s == sep + rest;
      assert StartsWith(s, sep) by {
        assert s[..|sep|] == sep;
      }
      assert s[|sep|..] == rest;
    } else {
      assert !StartsWith(s, sep) by {
        assert s[0] == p[0];
        if |sep| <= |s| {
          assert s[..|sep|][0] == s[0];
        }
      }
      assert s[1..] == p[1..] + sep + rest;
      SplitFirst(p[1..], rest, sep);
      assert [p[0]] + p[1..] == p;
    }
  }

  /**
   * Text free of the separator's second character, when that differs from
   * its first, is one piece.
   */
  lemma {:induction false} SplitWholeMarked(p: string, sep: string)
    requires |sep| >= 2 && sep[1] != sep[0] && sep[1] !in p
    ensures Split(p, sep) == [p]
    decreases |p|
  {
    if p != [] {
      assert !StartsWith(p, sep) by {
        if |sep| <= |p| {
          assert p[..|sep|][1] == p[1];
        }
      }
      SplitWholeMarked(p[1..], sep);
      assert [p[0]] + p[1..] == p;
    }
  }

  /**
   * A piece free of the separator's second character, when that differs
   * from its first, then the separator, splits off as the first piece.
   */
  lemma {:induction false} SplitFirstMarked(p: string, rest: string, sep: string)
    requires |sep| >= 2 && sep[1] != sep[0] && sep[1] !in p
    ensures Split(p + sep + rest, sep) == [p] + Split(rest, sep)
    decreases |p|
  {
    var s := p + sep + rest;
    if p == [] {
      assert s == sep + rest;
      assert StartsWith(s, sep) by {
        assert s[..|sep|] == sep;
      }
      assert s[|sep|..] == rest;
    } else {
      assert !StartsWith(s, sep) by {
        assert s[1] != sep[1] by {
          if |p| == 1 {
            assert s[1] == sep[0];
          } else {
            assert s[1] == p[1];
          }
        }
        if |sep| <= |s| {
          assert s[..|sep|][1] == s[1];
        }
      }
      assert s[1..] == p[1..] + sep + rest;
      SplitFirstMarked(p[1..], rest, sep);
      assert [p[0]] + p[1..] == p;
    }
  }

  /** A character in neither the pieces nor the separator is not in their join. */
  lemma {:induction false} JoinAvoids(pieces: seq<string>, sep: string, c: char)
    requires |pieces| >= 1 && c !in sep
    requires forall i :: 0 <= i < |pieces| ==> c !in pieces[i]
    ensures c !in Join(pieces, sep)
    decreases |pieces|
  {
    if |pieces| > 1 {
      JoinAvoids(pieces[1..], sep, c);
    }
  }

  /** Joining pieces that hold no character starting the separator, then splitting, gives the pieces back. */
  lemma {:induction false} JoinSplit(pieces: seq<string>, sep: string)
    requires sep != [] && |pieces| >= 1
    requires forall i :: 0 <= i < |pieces| ==> sep[0] !in pieces[i]
    ensures Split(Join(pieces, sep), sep) == pieces
    decreases |pieces|
  {
    if |pieces| == 1 {
      SplitWhole(pieces[0], sep);
    } else {
      JoinSplit(pieces[1..], sep);
      SplitFirst(pieces[0], Join(pieces[1..], sep), sep);
      assert [pieces[0]] + pieces[1..] == pieces;
    }
  }

  /** A one-character separator occurs in no piece, and there is one piece more than separators. */
  lemma {:induction false} SplitChar(s: string, c: char)
    ensures forall i :: 0 <= i < |Split(s, [c])| ==> c !in Split(s, [c])[i]
    ensures |Split(s, [c])| == Count(s, c) + 1
    decreases |s|
  {
    if s != [] {
      SplitChar(s[1..], c);
      if !StartsWith(s, [c]) {
        var tail := Split(s[1..], [c]);
        var pieces := [[s[0]] + tail[0]] + tail[1..];
        assert s[0] != c by {
          assert s[..1] == [s[0]];
        }
        assert forall i :: 1 <= i < |pieces| ==> pieces[i] == tail[i];
      } else {
        assert s[0] == c by {
          assert s[..1] == [s[0]];
        }
        assert s[1..] == s[|[c]|..];
      }
    }
  }

  function Count(s: string, c: char): nat
  {
    if s == [] then 0 else (if s[0] == c then 1 else 0) + Count(s[1..], c)
  }

  /** Appending one character adds one to its count. */
  lemma {:induction false} CountSnoc(s: string, x: char, c: char)
    ensures Count(s + [x], c) == Count(s, c) + (if x == c then 1 else 0)
    decreases |s|
  {
    if s != [] {
      assert (s + [x])[1..] == s[1..] + [x];
      CountSnoc(s[1..], x, c);
    }
  }

  /** `s.split(&[…][..])`: pieces between any characters of the set. */
  function SplitAny(s: string, seps: set<char>): (pieces: seq<string>)
    ensures |pieces| >= 1
  {
    if s == [] then [[]]
    else
      var tail := SplitAny(s[1..], seps);
      if s[0] in seps then [[]] + tail else [[s[0]] + tail[0]] + tail[1..]
  }

  /** No piece holds a separator, and the pieces concatenated are the text with its separators dropped. */
  lemma {:induction false} SplitAnyPieces(s: string, seps: set<char>)
    ensures forall i, j :: 0 <= i < |SplitAny(s, seps)| && 0 <= j < |SplitAny(s, seps)[i]| ==> SplitAny(s, seps)[i][j] !in seps
    ensures Concat(SplitAny(s, seps)) == Dropped(s, seps)
    decreases |s|
  {
    if s != [] {
      SplitAnyPieces(s[1..], seps);
      var tail := SplitAny(s[1..], seps);
      if s[0] in seps {
        assert ([[]] + tail)[1..] == tail;
      } else {
        var pieces := [[s[0]] + tail[0]] + tail[1..];
        assert forall i :: 1 <= i < |pieces| ==> pieces[i] == tail[i];
        assert pieces[1..] == tail[1..];
      }
    }
  }

  function Concat(pieces: seq<string>): string
  {
    if pieces == [] then [] else pieces[0] + Concat(pieces[1..])
  }

  function Dropped(s: string, seps: set<char>): string
  {
    if s == [] then [] else (if s[0] in seps then [] else [s[0]]) + Dropped(s[1..], seps)
  }

  /** The ASCII characters `char::is_whitespace` accepts. */
  predicate IsSpace(c: char)
  {
    c == ' ' || c == '\t' || c == '\n' || c == '\r' || c == '\U{000B}' || c == '\U{000C}'
  }

  /** The number of white-space characters s starts with. */
  function Lead(s: string): (n: nat)
    ensures n <= |s| && (forall k :: 0 <= k < n ==> IsSpace(s[k])) && (n < |s| ==> !IsSpace(s[n]))
  {
    if s == [] || !IsSpace(s[0]) then 0 else 1 + Lead(s[1..])
  }

  /** The length of s without its trailing white space. */
  function End(s: string): (n: nat)
    ensures n <= |s| && (forall k :: n <= k < |s| ==> IsSpace(s[k])) && (n > 0 ==> !IsSpace(s[n - 1]))
  {
    if s == [] || !IsSpace(s[|s| - 1]) then |s| else End(s[..|s| - 1])
  }

  /** `s.trim()`: leading and trailing white space removed. */
  function Trim(s: string): (t: string)
    ensures t != [] ==> !IsSpace(t[0]) && !IsSpace(t[|t| - 1])
  {
    var rest := s[Lead(s)..];
    rest[..End(rest)]
  }

  /** Text without white space at either end is its own trim. */
  lemma TrimClean(s: string)
    requires s == [] || (!IsSpace(s[0]) && !IsSpace(s[|s| - 1]))
    ensures Trim(s) == s
  {
    assert Lead(s) == 0;
    assert s[0..] == s;
    assert End(s) == |s|;
  }
}
