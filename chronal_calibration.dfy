/**
 * Chronal calibration (2018 day 1, in Go): every line is a frequency
 * change `+n` or `-n`.  The final frequency is the sum of one pass over
 * the changes; the calibration frequency is the first running sum,
 * starting from 0 and going round the list again and again, that was seen
 * before.  Frequencies are Go `int64` values, so every sum wraps around.
 */
module ChronalCalibration {
  import Numbers

  const U64Max := 0xFFFF_FFFF_FFFF_FFFF
  const I64Min := -0x8000_0000_0000_0000
  const I64Max := 0x7FFF_FFFF_FFFF_FFFF
  const Modulus := 0x1_0000_0000_0000_0000

  /** A Go `int64` result: the value taken modulo 2^64 into the signed range. */
  function Wrap(v: int): (r: int)
    ensures I64Min <= r <= I64Max
    ensures I64Min <= v <= I64Max ==> r == v
  {
    (v - I64Min) % Modulus + I64Min
  }

  /** Wrapping after every addition or only at the end gives the same `int64`. */
  lemma WrapAdd(a: int, b: int)
    ensures Wrap(Wrap(a) + b) == Wrap(a + b)
  {
    var q := (a - I64Min) / Modulus;
    assert a - I64Min == q * Modulus + (a - I64Min) % Modulus;
    assert Wrap(a) + b - I64Min == (a + b - I64Min) - q * Modulus;
    Shift(a + b - I64Min, q);
  }

  lemma Shift(v: int, q: int)
    ensures (v - q * Modulus) % Modulus == v % Modulus
  {
    var r := v % Modulus;
    assert v == (v / Modulus) * Modulus + r;
    assert v - q * Modulus == (v / Modulus - q) * Modulus + r;
  }

  datatype Fault = EmptyLine | BadNumber(line: string) | BadLine(line: string)

  datatype Result<T> = Ok(value: T) | Err(fault: Fault)

  /**
   * One line of `parseFile`: `line[0]` is out of range on an empty line;
   * the bytes after the first must read as a `uint64` (they cannot when the
   * first character takes more than one byte); then `+` converts it to
   * `int64` and `-` negates that, both wrapping, and any other operator is
   * a bad line.
   */
  function Change(line: string): Result<int>
  {
    if line == [] then Err(EmptyLine)
    else if line[0] as int >= 0x80 then Err(BadNumber(line))
    else
      match Numbers.ParseUint(line[1..])
      case None => Err(BadNumber(line))
      case Some(n) =>
        if line[0] == '+' then Ok(Wrap(n))
        else if line[0] == '-' then Ok(Wrap(-Wrap(n)))
        else Err(BadLine(line))
  }

  /** `+n` reads as n and `-n` as -n for every `int64` magnitude; any other operator is refused. */
  lemma ChangeSigns(n: nat, op: char)
    requires n <= I64Max
    ensures Change(['+'] + Numbers.Digits(n)) == Ok(n)
    ensures Change(['-'] + Numbers.Digits(n)) == Ok(-(n as int))
    ensures op != '+' && op != '-' && op as int < 0x80 ==> Change([op] + Numbers.Digits(n)) == Err(BadLine([op] + Numbers.Digits(n)))
  {
    Signed('+', n);
    Signed('-', n);
    Signed(op, n);
    assert Wrap(n) == n;
    assert Wrap(-(n as int)) == -(n as int);
  }

  /** A line made of an operator and the digits of a `uint64`. */
  lemma Signed(op: char, n: nat)
    requires n <= U64Max
    ensures Change([op] + Numbers.Digits(n)) ==
      if op as int >= 0x80 then Err(BadNumber([op] + Numbers.Digits(n)))
      else if op == '+' then Ok(Wrap(n))
      else if op == '-' then Ok(Wrap(-Wrap(n)))
      else Err(BadLine([op] + Numbers.Digits(n)))
  {
    var s := Numbers.Digits(n);
    Numbers.ParseUintDigits(n);
    var line := [op] + s;
    assert line[0] == op && line[1..] == s;
  }

  /** The changes of all lines, or the fault of the first line that does not read. */
  function Changes(lines: seq<string>): (r: Result<seq<int>>)
    ensures r.Ok? ==> |r.value| == |lines|
  {
    if lines == [] then Ok([])
    else
      match Change(lines[0])
      case Err(f) => Err(f)
      case Ok(v) =>
        match Changes(lines[1..])
        case Err(f) => Err(f)
        case Ok(rest) => Ok([v] + rest)
  }

  /** The lines read exactly when each does, each giving its own change in order. */
  lemma {:induction false} ChangesMeans(lines: seq<string>)
    ensures Changes(lines).Ok? <==> forall i :: 0 <= i < |lines| ==> Change(lines[i]).Ok?
    ensures Changes(lines).Ok? ==> forall i :: 0 <= i < |lines| ==> Changes(lines).value[i] == Change(lines[i]).value
  {
    if lines != [] {
      ChangesMeans(lines[1..]);
      assert forall i :: 1 <= i < |lines| ==> lines[1..][i - 1] == lines[i];
      if Changes(lines).Ok? {
        var rest := Changes(lines[1..]).value;
        assert Changes(lines).value == [Change(lines[0]).value] + rest;
      } else if Change(lines[0]).Ok? {
        assert !(forall i :: 0 <= i < |lines[1..]| ==> Change(lines[1..][i]).Ok?);
      }
    }
  }

  /** The `for scanner.Scan()` loop of `parseFile`. */
  method ParseFile(lines: seq<string>) returns (r: Result<seq<int>>)
    ensures r == Changes(lines)
  {
    var changes: seq<int> := [];
    assert lines[0..] == lines;
    if Changes(lines).Ok? {
      assert [] + Changes(lines).value == Changes(lines).value;
    }
    for i := 0 to |lines|
      invariant Changes(lines) == Ahead(changes, Changes(lines[i..]))
      invariant |changes| == i
    {
      assert lines[i..][0] == lines[i] && lines[i..][1..] == lines[i + 1..];
      var line := lines[i];
      if |line| == 0 {
        return Err(EmptyLine);
      }
      if line[0] as int >= 0x80 {
        return Err(BadNumber(line));
      }
      var num := Numbers.ParseUint(line[1..]);
      if num.None? {
        return Err(BadNumber(line));
      }
      var change;
      if line[0] == '+' {
        change := Wrap(num.value);
      } else if line[0] == '-' {
        change := Wrap(-Wrap(num.value));
      } else {
        return Err(BadLine(line));
      }
      AheadAhead(changes, [change], Changes(lines[i + 1..]));
      changes := changes + [change];
    }
    assert lines[|lines|..] == [];
    assert changes + [] == changes;
    r := Ok(changes);
  }

  /** A failed result, or the changes so far ahead of the rest. */
  function Ahead(done: seq<int>, r: Result<seq<int>>): Result<seq<int>>
  {
    match r
    case Err(f) => Err(f)
    case Ok(rest) => Ok(done + rest)
  }

  lemma AheadAhead(a: seq<int>, b: seq<int>, r: Result<seq<int>>)
    ensures Ahead(a, Ahead(b, r)) == Ahead(a + b, r)
  {
    if r.Ok? {
      assert a + (b + r.value) == a + b + r.value;
    }
  }

  /** The position in a list of w changes of change n (both from 0), going round the list. */
  function Index(n: nat, w: nat): (r: nat)
    requires w > 0
    ensures r < w
  {
    if n < w then n else Index(n - w, w)
  }

  /** The number of changes in p whole passes over w changes. */
  function Start(p: nat, w: nat): nat
  {
    if p == 0 then 0 else Start(p - 1, w) + w
  }

  /** The pass (from 1) in which change n (from 1) falls. */
  function PassOf(n: nat, w: nat): nat
    requires w > 0
  {
    if n <= w then 1 else PassOf(n - w, w) + 1
  }

  /** Change i of pass p + 1 is at position i of the list, and in pass p + 1. */
  lemma {:induction false} Pass(p: nat, w: nat, i: nat)
    requires i < w
    ensures Index(Start(p, w) + i, w) == i && PassOf(Start(p, w) + i + 1, w) == p + 1
  {
    if p > 0 {
      Pass(p - 1, w, i);
      assert Start(p, w) + i - w == Start(p - 1, w) + i;
    }
  }

  /** The `int64` frequency after n changes, going round the list. */
  function Sum(c: seq<int>, n: nat): int
    requires c != [] || n == 0
  {
    if n == 0 then 0 else Wrap(Sum(c, n - 1) + c[Index(n - 1, |c|)])
  }

  /** The plain sum of the changes. */
  function Total(c: seq<int>): int
  {
    if c == [] then 0 else Total(c[..|c| - 1]) + c[|c| - 1]
  }

  /** After one pass the frequency is the sum of the changes, wrapped once into `int64`. */
  lemma {:induction false} FinalIsTotal(c: seq<int>, n: nat)
    requires n <= |c|
    ensures Sum(c, n) == Wrap(Total(c[..n]))
  {
    if n > 0 {
      FinalIsTotal(c, n - 1);
      assert c[..n][..n - 1] == c[..n - 1] && c[..n][n - 1] == c[n - 1];
      assert Total(c[..n]) == Total(c[..n - 1]) + c[n - 1];
      WrapAdd(Total(c[..n - 1]), c[n - 1]);
    } else {
      assert c[..0] == [];
    }
  }

  /** The frequencies seen in the first n changes, 0 included. */
  function Seen(c: seq<int>, n: nat): set<int>
    requires c != [] || n == 0
  {
    set j | 0 <= j <= n :: Sum(c, j)
  }

  /** No frequency repeats within the first t changes. */
  predicate Fresh(c: seq<int>, t: nat)
    requires c != [] || t == 0
  {
    forall j :: 1 <= j <= t ==> Sum(c, j) !in Seen(c, j - 1)
  }

  /** Change n is the first to reach a frequency seen before. */
  predicate FirstRepeat(c: seq<int>, n: nat)
    requires c != []
  {
    n >= 1 && Fresh(c, n - 1) && Sum(c, n) in Seen(c, n - 1)
  }

  /** There is at most one first repeat, so the calibration frequency is well defined. */
  lemma FirstRepeatUnique(c: seq<int>, n: nat, m: nat)
    requires c != [] && FirstRepeat(c, n) && FirstRepeat(c, m)
    ensures n == m
  {
  }

  lemma SeenNext(c: seq<int>, n: nat)
    requires c != [] && n > 0
    ensures Seen(c, n) == Seen(c, n - 1) + {Sum(c, n)}
  {
  }

  /** Without a repeat the t + 1 frequencies seen are all different. */
  lemma {:induction false} FreshCard(c: seq<int>, t: nat)
    requires (c != [] || t == 0) && Fresh(c, t)
    ensures |Seen(c, t)| == t + 1
  {
    if t > 0 {
      FreshCard(c, t - 1);
      SeenNext(c, t);
    } else {
      SeenZero(c);
    }
  }

  lemma SeenZero(c: seq<int>)
    ensures Seen(c, 0) == {0}
  {
    assert Sum(c, 0) == 0;
    assert 0 in Seen(c, 0);
  }

  /** A set of integers between lo and hi has at most hi - lo + 1 elements. */
  lemma {:induction false} BoundedCard(a: set<int>, lo: int, hi: int)
    requires lo <= hi + 1 && forall x :: x in a ==> lo <= x <= hi
    ensures |a| <= hi - lo + 1
    decreases hi - lo
  {
    if lo <= hi {
      BoundedCard(a - {hi}, lo, hi - 1);
    } else {
      assert forall x :: x !in a;
      assert a == {};
    }
  }

  /**
   * With wrap-around, fewer than 2^64 changes in a row can avoid a repeat:
   * the calibration loop ends on every non-empty list.
   */
  lemma Bounded(c: seq<int>, t: nat)
    requires c != [] && Fresh(c, t)
    ensures t < Modulus
  {
    FreshCard(c, t);
    BoundedCard(Seen(c, t), I64Min, I64Max);
  }

  /** The frequencies found and the number of passes (a `uint64`) it took. */
  datatype Calibration = Forever | Found(final: int, calib: int, loops: nat)

  /** v is the first repeated frequency, found on pass `loops`, counted modulo 2^64. */
  ghost predicate CalibratedAt(c: seq<int>, v: int, loops: nat)
    requires c != []
  {
    exists n: nat :: FirstRepeat(c, n) && Sum(c, n) == v && loops == PassOf(n, |c|) % Modulus
  }

  /** freq is the frequency after t changes and seen the frequencies met so far. */
  ghost predicate Tracked(c: seq<int>, t: nat, freq: int, seen: set<int>)
    requires c != []
  {
    freq == Sum(c, t) && seen == Seen(c, t)
  }

  /** Change i of pass p + 1 moves the frequency by c[i] and adds the result to those seen. */
  lemma Next(c: seq<int>, p: nat, i: nat, t: nat, freq: int, seen: set<int>)
    requires i < |c| && t == Start(p, |c|) + i && Tracked(c, t, freq, seen)
    ensures Tracked(c, t + 1, Wrap(freq + c[i]), seen + {Wrap(freq + c[i])}) && PassOf(t + 1, |c|) == p + 1
  {
    Pass(p, |c|, i);
    SeenNext(c, t + 1);
  }

  /**
   * The search for a repeat: until one is found the first t changes reach
   * new frequencies; once found, `at` is the first change to repeat, on
   * pass `passes`, and `calib` its frequency.
   */
  ghost predicate Search(c: seq<int>, t: nat, passes: nat, found: bool, at: nat, calib: int)
    requires c != []
  {
    if found then FirstRepeat(c, at) && calib == Sum(c, at) && PassOf(at, |c|) == passes
    else Fresh(c, t)
  }

  /** A change that reaches a new frequency keeps the search going. */
  lemma SearchOn(c: seq<int>, t: nat, passes: nat, at: nat, calib: int)
    requires c != [] && t > 0 && Search(c, t - 1, passes, false, at, calib) && Sum(c, t) !in Seen(c, t - 1)
    ensures Search(c, t, passes, false, at, calib)
  {
  }

  /** The first change that reaches a frequency seen before ends it. */
  lemma SearchFound(c: seq<int>, t: nat, passes: nat, at: nat, calib: int)
    requires c != [] && t > 0 && Search(c, t - 1, passes, false, at, calib) && Sum(c, t) in Seen(c, t - 1)
    requires PassOf(t, |c|) == passes
    ensures Search(c, t, passes, true, t, Sum(c, t))
  {
  }

  /** A `uint64` counter that is bumped stays the count modulo 2^64. */
  lemma Count(n: nat)
    ensures (n % Modulus + 1) % Modulus == (n + 1) % Modulus
  {
    Shift(n + 1, n / Modulus);
  }

  /**
   * The `for _, change := range changes` loop of `run`: pass p + 1 over the
   * changes, starting fresh after t0 = p * |c| changes.  It stops at the end
   * of the list, or at the first repeat once the final frequency is known.
   */
  method Round(c: seq<int>, ghost p: nat, ghost t0: nat, freq0: int, freqMap0: set<int>, foundFreq: bool)
    returns (freq: int, freqMap: set<int>, foundCalib: bool, calibFreq: int, ghost t: nat, ghost at: nat)
    requires c != [] && t0 == Start(p, |c|) && Tracked(c, t0, freq0, freqMap0) && Fresh(c, t0)
    ensures Tracked(c, t, freq, freqMap) && Search(c, t, p + 1, foundCalib, at, calibFreq)
    ensures !(foundCalib && foundFreq) ==> t == Start(p + 1, |c|)
  {
    freq, freqMap, foundCalib, calibFreq, t, at := freq0, freqMap0, false, 0, t0, 0;
    var i := 0;
    while i < |c|
      invariant 0 <= i <= |c| && t == Start(p, |c|) + i
      invariant Tracked(c, t, freq, freqMap)
      invariant Search(c, t, p + 1, foundCalib, at, calibFreq)
    {
      Next(c, p, i, t, freq, freqMap);
      freq := Wrap(freq + c[i]);
      t := t + 1;
      if freq !in freqMap {
        if !foundCalib {
          SearchOn(c, t, p + 1, at, calibFreq);
        }
        freqMap := freqMap + {freq};
      } else {
        assert freqMap + {freq} == freqMap;
        if !foundCalib {
          SearchFound(c, t, p + 1, at, calibFreq);
          calibFreq := freq;
          foundCalib := true;
          at := t;
          if foundFreq {
            return;
          }
        }
      }
      i := i + 1;
    }
  }

  /**
   * `run`: passes over the changes until a frequency repeats, the first
   * pass giving the final frequency; on an empty list the loop never ends.
   */
  method Calibrate(c: seq<int>) returns (r: Calibration)
    ensures r.Forever? <==> c == []
    ensures r.Found? ==> r.final == Sum(c, |c|) && CalibratedAt(c, r.calib, r.loops)
  {
    if |c| == 0 {
      return Forever;
    }
    var freq := 0;
    var finalFreq := 0;
    var foundFreq := false;
    var calibFreq := 0;
    var foundCalib := false;
    var freqMap: set<int> := {0};
    var loopCount: nat := 0;
    ghost var passes: nat := 0;
    ghost var t: nat := 0;
    ghost var at: nat := 0;
    SeenZero(c);
    while !foundCalib
      invariant Tracked(c, t, freq, freqMap)
      invariant foundFreq <==> passes >= 1
      invariant foundFreq ==> finalFreq == Sum(c, |c|)
      invariant Search(c, t, passes, foundCalib, at, calibFreq)
      invariant !foundCalib ==> t == Start(passes, |c|)
      invariant loopCount == passes % Modulus
      decreases if foundCalib then 0 else Modulus + 1 - t
    {
      Bounded(c, t);
      Count(passes);
      loopCount := (loopCount + 1) % Modulus;
      freq, freqMap, foundCalib, calibFreq, t, at := Round(c, passes, t, freq, freqMap, foundFreq);
      passes := passes + 1;
      if !foundFreq {
        finalFreq := freq;
        foundFreq := true;
      }
      if !foundCalib {
        Bounded(c, t);
      }
    }
    return Found(finalFreq, calibFreq, loopCount);
  }
}
