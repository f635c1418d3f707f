/**
 * Sonar sweep of 2021/day1/src/main.rs: how often a depth reading, or the
 * sum of a three-reading window, is larger than the one before it.
 */
module SonarSweep {
  import Numbers

  const I32Min := -0x8000_0000
  const I32Max := 0x7fff_ffff

  datatype Fault =
    | BadNumber(line: string)   // `parse::<i32>().unwrap()` panics
    | TooFew(count: nat)        // `main` wants at least four readings

  datatype Result<T> = Ok(value: T) | Err(fault: Fault)

  /** The readings of the file, one `i32` a line; `main` stops with fewer than four. */
  function ParseInput(lines: seq<string>): (r: Result<seq<int>>)
    ensures r.Ok? ==> |r.value| == |lines| >= 4
    ensures r.Ok? ==> forall i :: 0 <= i < |lines| ==> Numbers.ParseInteger(lines[i], I32Min, I32Max) == Numbers.Some(r.value[i])
    ensures r == Err(TooFew(|lines|)) <==> |lines| < 4 && forall i :: 0 <= i < |lines| ==> Numbers.ParseInteger(lines[i], I32Min, I32Max).Some?
  {
    match Readings(lines)
    case Unparsable(line) => Err(BadNumber(line))
    case Parsed(nums) => if |nums| < 4 then Err(TooFew(|nums|)) else Ok(nums)
  }

  datatype Parsed = Parsed(nums: seq<int>) | Unparsable(line: string)

  /** `line.parse::<i32>()` gives v. */
  predicate Reads(line: string, v: int)
  {
    Numbers.ParseInteger(line, I32Min, I32Max) == Numbers.Some(v)
  }

  /** `line.parse::<i32>()` succeeds. */
  predicate Readable(line: string)
  {
    Numbers.ParseInteger(line, I32Min, I32Max).Some?
  }

  function Readings(lines: seq<string>): (r: Parsed)
    ensures r.Parsed? <==> forall i :: 0 <= i < |lines| ==> Readable(lines[i])
    ensures r.Parsed? ==> |r.nums| == |lines| && forall i :: 0 <= i < |lines| ==> Reads(lines[i], r.nums[i])
  {
    if lines == [] then Parsed([])
    else
      match Numbers.ParseInteger(lines[0], I32Min, I32Max)
      case None => Unparsable(lines[0])
      case Some(v) =>
        var rest := Readings(lines[1..]);
        assert forall i :: 1 <= i < |lines| ==> lines[1..][i - 1] == lines[i];
        if rest.Unparsable? then rest else Parsed([v] + rest.nums)
  }

  /** The number of positions i with gap <= i < n whose entry exceeds the entry gap places earlier. */
  function Rises(s: seq<int>, gap: nat, n: nat): nat
    requires n <= |s|
  {
    if n <= gap then 0 else Rises(s, gap, n - 1) + (if s[n - 1] > s[n - 1 - gap] then 1 else 0)
  }

  /** `count_increases`: readings deeper than the previous one. */
  method CountIncreases(nums: seq<int>) returns (count: nat)
    ensures count == Rises(nums, 1, |nums|)
  {
    count := 0;
    var index := 1;
    while index < |nums|
      invariant 1 <= index && (index <= |nums| || nums == [])
      invariant count == Rises(nums, 1, if nums == [] then 0 else index)
    {
      if nums[index] > nums[index - 1] {
        count := count + 1;
      }
      index := index + 1;
    }
  }

  /** At most one rise per reading after the first. */
  lemma {:induction false} RisesBound(s: seq<int>, gap: nat, n: nat)
    requires gap <= n <= |s|
    ensures Rises(s, gap, n) <= n - gap
    decreases n
  {
    if n > gap {
      RisesBound(s, gap, n - 1);
    }
  }

  /** The sum of readings k, k + 1 and k + 2. */
  function Window(s: seq<int>, k: nat): int
    requires k + 2 < |s|
  {
    s[k] + s[k + 1] + s[k + 2]
  }

  /** The three-reading window sums, window k first covering reading k. */
  function Windows(s: seq<int>): (w: seq<int>)
    ensures |w| == if |s| < 3 then 0 else |s| - 2
    ensures forall k :: 0 <= k < |w| ==> w[k] == Window(s, k)
  {
    if |s| < 3 then []
    else
      var front := Windows(s[..|s| - 1]);
      assert forall k :: 0 <= k < |front| ==> Window(s[..|s| - 1], k) == Window(s, k);
      front + [Window(s, |s| - 3)]
  }

  /**
   * `sliding_window_increases`: the running window is moved one reading on
   * by adding the new reading and dropping the oldest; the count is the
   * number of windows larger than the window before.
   */
  method SlidingWindowIncreases(nums: seq<int>) returns (count: nat)
    requires |nums| >= 3
    ensures count == Rises(Windows(nums), 1, |nums| - 2)
  {
    count := 0;
    var window := nums[0] + nums[1] + nums[2];
    ghost var w := Windows(nums);
    for index := 3 to |nums|
      invariant window == w[index - 3]
      invariant count == Rises(w, 1, index - 2)
    {
      var newWindow := window + nums[index] - nums[index - 3];
      assert newWindow == Window(nums, index - 2);
      if newWindow > window {
        count := count + 1;
      }
      window := newWindow;
    }
  }

  /** A window is larger than the one before exactly when its new reading exceeds the one it dropped. */
  lemma {:induction false} WindowRises(s: seq<int>, n: nat)
    requires 3 <= n <= |s|
    ensures Rises(Windows(s), 1, n - 2) == Rises(s, 3, n)
    decreases n
  {
    if n > 3 {
      WindowRises(s, n - 1);
      var w := Windows(s);
      assert w[n - 3] == Window(s, n - 3) && w[n - 4] == Window(s, n - 4);
    }
  }

  /** So the sliding count is the number of readings deeper than the one three places before. */
  lemma SlidingCount(s: seq<int>)
    requires |s| >= 3
    ensures Rises(Windows(s), 1, |s| - 2) == Rises(s, 3, |s|)
    ensures Rises(s, 3, |s|) <= |s| - 3
  {
    var n := |s|;
    WindowRises(s, n);
    RisesBound(s, 3, n);
  }
}
