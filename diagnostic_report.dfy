/**
 * The submarine diagnostics of 2021/day3/src/main.rs: gamma and epsilon
 * from per-position digit counts kept in two hash maps, and the oxygen and
 * CO2 scrubber codes found by repeatedly keeping the codes with the
 * majority (or minority) bit at the next position.
 */
module DiagnosticReport {

  datatype Result<T> = Ok(value: T) | Err(fault: Fault)

  datatype Fault =
    | ShortCode      // `chars().nth(index).unwrap()` past the end of a code
    | EmptyList      // `scrubber_list[0]` (or `oxygen_list[0]`) on an empty list

  // Power rates.

  /** The digits of a code that `calculate_power_rates` counts: each '0' or '1'; every other character is skipped without advancing the position. */
  function Bits(code: string): (b: string)
    ensures |b| <= |code|
    ensures forall i :: 0 <= i < |b| ==> b[i] == '0' || b[i] == '1'
  {
    if code == [] then [] else Bits(code[..|code| - 1]) + (if code[|code| - 1] in "01" then [code[|code| - 1]] else [])
  }

  /** How many of the digit strings have digit c at position i. */
  function CountAt(bs: seq<string>, i: int, c: char): nat
  {
    if bs == [] then 0
    else
      var last := bs[|bs| - 1];
      CountAt(bs[..|bs| - 1], i, c) + (if 0 <= i < |last| && last[i] == c then 1 else 0)
  }

  function Width(bs: seq<string>): nat
  {
    if bs == [] then 0 else var w := Width(bs[..|bs| - 1]); if |bs[|bs| - 1]| > w then |bs[|bs| - 1]| else w
  }

  lemma {:induction false} CountWithin(bs: seq<string>, i: int, c: char)
    requires CountAt(bs, i, c) > 0
    ensures 0 <= i < Width(bs)
    decreases |bs|
  {
    var last := bs[|bs| - 1];
    if CountAt(bs[..|bs| - 1], i, c) > 0 {
      CountWithin(bs[..|bs| - 1], i, c);
    }
  }

  /** The counter map for digit c: position to count, for the positions that saw c at least once. */
  function Tally(bs: seq<string>, c: char): map<int, int>
  {
    map i | 0 <= i < Width(bs) && CountAt(bs, i, c) > 0 :: CountAt(bs, i, c) as int
  }

  /** `map.get(&i)` with a missing key read as 0. */
  function Get(m: map<int, int>, i: int): int
  {
    if i in m then m[i] else 0
  }

  lemma TallyGet(bs: seq<string>, c: char, i: int)
    ensures Get(Tally(bs, c), i) == CountAt(bs, i, c)
  {
    if CountAt(bs, i, c) > 0 {
      CountWithin(bs, i, c);
    }
  }

  /** Appending one digit to the last code adds one to that position's counter for its digit. */
  lemma TallyStep(bs: seq<string>, b: string, ch: char, c: char)
    ensures Tally(bs + [b + [ch]], c) == if ch == c then Tally(bs + [b], c)[|b| := Get(Tally(bs + [b], c), |b|) + 1] else Tally(bs + [b], c)
  {
    var before, after := bs + [b], bs + [b + [ch]];
    assert before[..|before| - 1] == bs && after[..|after| - 1] == bs;
    forall i
      ensures CountAt(after, i, c) == CountAt(before, i, c) + (if i == |b| && ch == c then 1 else 0)
    {
    }
    var m, n := Tally(before, c), Tally(after, c);
    TallyGet(before, c, |b|);
    forall i
      ensures i in n <==> i in (if ch == c then m[|b| := Get(m, |b|) + 1] else m)
      ensures i in n ==> n[i] == (if ch == c then m[|b| := Get(m, |b|) + 1] else m)[i]
    {
      if CountAt(after, i, c) > 0 {
        CountWithin(after, i, c);
      }
      if CountAt(before, i, c) > 0 {
        CountWithin(before, i, c);
        assert Width(after) >= Width(before);
      }
      if i == |b| && ch == c {
        assert Width(after) > |b|;
      }
    }
  }

  lemma TallyEmptyCode(bs: seq<string>, c: char)
    ensures Tally(bs + [[]], c) == Tally(bs, c)
  {
    var after := bs + [[]];
    assert after[..|after| - 1] == bs;
    assert Width(after) == Width(bs);
  }

  function AllBits(codes: seq<string>): (bs: seq<string>)
    ensures |bs| == |codes|
  {
    if codes == [] then [] else AllBits(codes[..|codes| - 1]) + [Bits(codes[|codes| - 1])]
  }

  /** Gamma from the counters: '1' where ones are at least as frequent as zeros. */
  function GammaOf(ones: map<int, int>, zero: map<int, int>, n: nat): string
  {
    seq(n, i => if Get(ones, i) >= Get(zero, i) then '1' else '0')
  }

  function EpsilonOf(ones: map<int, int>, zero: map<int, int>, n: nat): string
  {
    seq(n, i => if Get(ones, i) >= Get(zero, i) then '0' else '1')
  }

  /** The result of `calculate_power_rates`. */
  function PowerRates(codes: seq<string>): (string, string)
  {
    var ones, zero := Tally(AllBits(codes), '1'), Tally(AllBits(codes), '0');
    if |ones| != |zero| then ("", "") else (GammaOf(ones, zero, |ones|), EpsilonOf(ones, zero, |ones|))
  }

  /**
   * Gamma and epsilon have one digit per counted position and differ at
   * every one; a tie puts '1' in gamma; and mismatched counter sizes give
   * two empty strings.
   */
  lemma PowerRatesShape(codes: seq<string>)
    ensures var (gamma, epsilon) := PowerRates(codes);
            var ones, zero := Tally(AllBits(codes), '1'), Tally(AllBits(codes), '0');
            && (|ones| != |zero| ==> gamma == "" && epsilon == "")
            && |gamma| == |epsilon|
            && (|ones| == |zero| ==> |gamma| == |ones|)
            && (forall i :: 0 <= i < |gamma| ==> gamma[i] != epsilon[i] && gamma[i] in "01" && epsilon[i] in "01")
            && (forall i :: 0 <= i < |gamma| ==> (gamma[i] == '1' <==> CountAt(AllBits(codes), i, '1') >= CountAt(AllBits(codes), i, '0')))
  {
    var bs := AllBits(codes);
    forall i | 0 <= i
      ensures Get(Tally(bs, '1'), i) == CountAt(bs, i, '1') && Get(Tally(bs, '0'), i) == CountAt(bs, i, '0')
    {
      TallyGet(bs, '1', i);
      TallyGet(bs, '0', i);
    }
  }

  /** `calculate_power_rates`: the counting loops over every code's characters, then the digit loop. */
  method CalculatePowerRates(codes: seq<string>) returns (gamma: string, epsilon: string)
    ensures (gamma, epsilon) == PowerRates(codes)
  {
    var ones: map<int, int> := map[];
    var zero: map<int, int> := map[];
    var k := 0;
    while k < |codes|
      invariant 0 <= k <= |codes|
      invariant ones == Tally(AllBits(codes[..k]), '1') && zero == Tally(AllBits(codes[..k]), '0')
    {
      ones, zero := CountCode(codes[..k], codes[k], ones, zero);
      assert codes[..k + 1][..k] == codes[..k];
      k := k + 1;
    }
    assert codes[..k] == codes;
    if |ones| != |zero| {
      return "", "";
    }
    gamma, epsilon := "", "";
    var index := 0;
    while index < |ones|
      invariant 0 <= index <= |ones|
      invariant gamma == GammaOf(ones, zero, index) && epsilon == EpsilonOf(ones, zero, index)
    {
      var oneCount := if index in ones then ones[index] else 0;
      var zeroCount := if index in zero then zero[index] else 0;
      if oneCount >= zeroCount {
        gamma := gamma + "1";
        epsilon := epsilon + "0";
      } else {
        gamma := gamma + "0";
        epsilon := epsilon + "1";
      }
      index := index + 1;
    }
  }

  /** The inner `for digit in code.chars()` loop: counts one code's digits into the two maps. */
  method CountCode(done: seq<string>, code: string, ones0: map<int, int>, zero0: map<int, int>) returns (ones: map<int, int>, zero: map<int, int>)
    requires ones0 == Tally(AllBits(done), '1') && zero0 == Tally(AllBits(done), '0')
    ensures ones == Tally(AllBits(done + [code]), '1') && zero == Tally(AllBits(done + [code]), '0')
  {
    var bs := AllBits(done);
    ones, zero := ones0, zero0;
    var index := 0;
    var j := 0;
    TallyEmptyCode(bs, '1');
    TallyEmptyCode(bs, '0');
    assert code[..0] == [];
    while j < |code|
      invariant 0 <= j <= |code|
      invariant index == |Bits(code[..j])|
      invariant ones == Tally(bs + [Bits(code[..j])], '1') && zero == Tally(bs + [Bits(code[..j])], '0')
    {
      var digit := code[j];
      BitsNext(code, j);
      ghost var b := Bits(code[..j]);
      if digit == '0' {
        TallyStep(bs, b, digit, '0');
        TallyStep(bs, b, digit, '1');
        zero := zero[index := Get(zero, index) + 1];
        assert zero == Tally(bs + [b + [digit]], '0');
        assert ones == Tally(bs + [b + [digit]], '1');
        assert Bits(code[..j + 1]) == b + [digit];
        index := index + 1;
      } else if digit == '1' {
        TallyStep(bs, b, digit, '0');
        TallyStep(bs, b, digit, '1');
        ones := ones[index := Get(ones, index) + 1];
        assert ones == Tally(bs + [b + [digit]], '1');
        assert zero == Tally(bs + [b + [digit]], '0');
        assert Bits(code[..j + 1]) == b + [digit];
        index := index + 1;
      } else {
        assert digit !in "01";
        assert Bits(code[..j + 1]) == b;
      }
      j := j + 1;
    }
    assert code[..j] == code;
    var all := done + [code];
    assert all[..|all| - 1] == done;
  }

  lemma BitsNext(code: string, j: nat)
    requires j < |code|
    ensures Bits(code[..j + 1]) == Bits(code[..j]) + (if code[j] in "01" then [code[j]] else [])
  {
    assert code[..j + 1][..j] == code[..j];
  }

  // Life support rates.

  /** The ones and zeros at `index` over the list; a code too short for `nth(index)` panics. */
  function Column(list: seq<string>, index: nat): (r: Result<(nat, nat)>)
    ensures r.Ok? <==> forall e :: e in list ==> index < |e|
    ensures r.Ok? ==> r.value.0 + r.value.1 <= |list|
  {
    if list == [] then Ok((0, 0))
    else if |list[0]| <= index then Err(ShortCode)
    else
      match Column(list[1..], index)
      case Err(f) => Err(f)
      case Ok((ones, zeros)) =>
        assert forall e :: e in list ==> e == list[0] || e in list[1..];
        Ok((ones + (if list[0][index] == '1' then 1 else 0), zeros + (if list[0][index] == '0' then 1 else 0)))
  }

  /** `retain`: the codes, in order, whose character at `index` is c. */
  function Keep(list: seq<string>, index: nat, c: char): (kept: seq<string>)
    requires forall e :: e in list ==> index < |e|
    ensures forall e :: e in kept <==> e in list && e[index] == c
    ensures |kept| <= |list|
  {
    if list == [] then []
    else
      assert forall e :: e in list[1..] ==> e in list;
      (if list[0][index] == c then [list[0]] else []) + Keep(list[1..], index, c)
  }

  /** For codes that are all binary at `index`, the kept codes are as many as the count of c. */
  lemma {:induction false} KeepCount(list: seq<string>, index: nat)
    requires Column(list, index).Ok?
    requires forall e :: e in list ==> e[index] in "01"
    ensures |Keep(list, index, '1')| == Column(list, index).value.0
    ensures |Keep(list, index, '0')| == Column(list, index).value.1
    ensures Column(list, index).value.0 + Column(list, index).value.1 == |list|
    decreases |list|
  {
    if list != [] {
      var h, rest := list[0], list[1..];
      assert h in list;
      assert forall e :: e in rest ==> e in list;
      KeepCount(rest, index);
      ColumnUnfolds(list, index);
      assert Keep(list, index, '1') == (if h[index] == '1' then [h] else []) + Keep(rest, index, '1');
      assert Keep(list, index, '0') == (if h[index] == '0' then [h] else []) + Keep(rest, index, '0');
      assert h[index] == '0' || h[index] == '1';
    }
  }

  /** The first code's character at `index` adds to one of the two counts of the rest. */
  lemma ColumnUnfolds(list: seq<string>, index: nat)
    requires list != [] && Column(list, index).Ok?
    ensures Column(list[1..], index).Ok?
    ensures Column(list, index).value.0 == Column(list[1..], index).value.0 + (if list[0][index] == '1' then 1 else 0)
    ensures Column(list, index).value.1 == Column(list[1..], index).value.1 + (if list[0][index] == '0' then 1 else 0)
  {
  }

  /** The bit a round keeps: the majority (tie '1') for oxygen, the minority (tie '0') for the scrubber. */
  function Wanted(oxygen: bool, ones: nat, zeros: nat): char
  {
    if oxygen then (if ones >= zeros then '1' else '0') else (if ones >= zeros then '0' else '1')
  }

  /** The `while list.len() > 1` loop; every code has at most `bound` characters. */
  function Filter(list: seq<string>, index: nat, bound: nat, oxygen: bool): Result<seq<string>>
    requires forall e :: e in list ==> |e| <= bound
    decreases bound - index
  {
    if |list| <= 1 then Ok(list)
    else
      match Column(list, index)
      case Err(f) => Err(f)
      case Ok((ones, zeros)) =>
        assert index < |list[0]| <= bound;
        Filter(Keep(list, index, Wanted(oxygen, ones, zeros)), index + 1, bound, oxygen)
  }

  /** Every round keeps a sub-list; the result holds at most one code, all from the list. */
  lemma {:induction false} FilterKeeps(list: seq<string>, index: nat, bound: nat, oxygen: bool)
    requires forall e :: e in list ==> |e| <= bound
    requires Filter(list, index, bound, oxygen).Ok?
    ensures |Filter(list, index, bound, oxygen).value| <= 1
    ensures forall e :: e in Filter(list, index, bound, oxygen).value ==> e in list
    decreases bound - index
  {
    if |list| > 1 {
      var (ones, zeros) := Column(list, index).value;
      assert index < |list[0]| <= bound;
      FilterKeeps(Keep(list, index, Wanted(oxygen, ones, zeros)), index + 1, bound, oxygen);
    }
  }

  predicate Binary(list: seq<string>)
  {
    forall e, i :: e in list && 0 <= i < |e| ==> e[i] in "01"
  }

  /** With binary codes the oxygen list never becomes empty: a non-empty list yields exactly one code. */
  lemma {:induction false} OxygenNeverEmpty(list: seq<string>, index: nat, bound: nat)
    requires forall e :: e in list ==> |e| <= bound
    requires Binary(list) && list != [] && Filter(list, index, bound, true).Ok?
    ensures |Filter(list, index, bound, true).value| == 1
    decreases bound - index
  {
    if |list| > 1 {
      var (ones, zeros) := Column(list, index).value;
      KeepCount(list, index);
      var kept := Keep(list, index, Wanted(true, ones, zeros));
      assert index < |list[0]| <= bound;
      assert forall e :: e in kept ==> e in list;
      OxygenNeverEmpty(kept, index + 1, bound);
    }
  }

  /** The scrubber list can become empty: two codes that share their first bit, 1, are both dropped. */
  lemma ScrubberCanEmpty()
    ensures Filter(["10", "11"], 0, 2, false) == Ok([])
  {
    var list := ["10", "11"];
    assert Column(list[1..], 0) == Ok((1, 0));
    assert Column(list, 0) == Ok((2, 0));
    assert Keep(list[1..], 0, '0') == [];
    assert Keep(list, 0, '0') == [];
  }

  function MaxLength(codes: seq<string>): (n: nat)
    ensures forall e :: e in codes ==> |e| <= n
  {
    if codes == [] then 0
    else
      var m := MaxLength(codes[1..]);
      assert forall e :: e in codes ==> e == codes[0] || e in codes[1..];
      if |codes[0]| > m then |codes[0]| else m
  }

  /** `calculate_life_support_rates` as written: the final guard only returns early when both lists are bad. */
  function LifeSupportAsWritten(codes: seq<string>): Result<(string, string)>
  {
    var bound := MaxLength(codes);
    match (Filter(codes, 0, bound, true), Filter(codes, 0, bound, false))
    case (Err(f), _) => Err(f)
    case (_, Err(f)) => Err(f)
    case (Ok(oxygen), Ok(scrubber)) =>
      if |oxygen| != 1 && |scrubber| != 1 then Ok(("", ""))
      else if oxygen == [] || scrubber == [] then Err(EmptyList)
      else Ok((oxygen[0], scrubber[0]))
  }

  /** The guard as plainly intended: either list not a single code gives the empty pair. */
  function LifeSupport(codes: seq<string>): Result<(string, string)>
  {
    var bound := MaxLength(codes);
    match (Filter(codes, 0, bound, true), Filter(codes, 0, bound, false))
    case (Err(f), _) => Err(f)
    case (_, Err(f)) => Err(f)
    case (Ok(oxygen), Ok(scrubber)) =>
      if |oxygen| != 1 || |scrubber| != 1 then Ok(("", ""))
      else Ok((oxygen[0], scrubber[0]))
  }

  /** As written, the codes 10 and 11 leave a single oxygen code and no scrubber code, and indexing the empty list panics. */
  lemma AsWrittenPanics()
    ensures LifeSupportAsWritten(["10", "11"]) == Err(EmptyList)
  {
    var list := ["10", "11"];
    assert MaxLength(list) == 2;
    ScrubberCanEmpty();
    assert Column(list[1..], 0) == Ok((1, 0));
    assert Column(list, 0) == Ok((2, 0));
    assert Keep(list, 0, '1') == list;
    assert Column(list[1..], 1) == Ok((1, 0));
    assert Column(list, 1) == Ok((1, 1));
    assert Keep(list[1..], 1, '1') == ["11"];
    assert Keep(list, 1, '1') == ["11"];
    assert Filter(["11"], 2, 2, true) == Ok(["11"]);
  }

  /** With the intended guard the rates are either the empty pair or two of the codes, and no list is indexed when empty. */
  lemma LifeSupportFromCodes(codes: seq<string>)
    requires LifeSupport(codes).Ok?
    ensures var (o, s) := LifeSupport(codes).value;
            (o == "" && s == "") || (o in codes && s in codes)
  {
    var bound := MaxLength(codes);
    FilterKeeps(codes, 0, bound, true);
    FilterKeeps(codes, 0, bound, false);
  }

  /** The column count of one round: the `for elem in &list` loop. */
  method CountColumn(list: seq<string>, index: nat) returns (r: Result<(nat, nat)>)
    ensures r == Column(list, index)
  {
    var ones, zeros := 0, 0;
    var k := 0;
    while k < |list|
      invariant 0 <= k <= |list|
      invariant Column(list, index) == Shifted(Column(list[k..], index), ones, zeros)
    {
      assert list[k..][0] == list[k] && list[k..][1..] == list[k + 1..];
      if |list[k]| <= index {
        return Err(ShortCode);
      }
      if list[k][index] == '0' {
        zeros := zeros + 1;
      } else if list[k][index] == '1' {
        ones := ones + 1;
      }
      k := k + 1;
    }
    return Ok((ones, zeros));
  }

  function Shifted(r: Result<(nat, nat)>, ones: nat, zeros: nat): Result<(nat, nat)>
  {
    if r.Err? then r else Ok((r.value.0 + ones, r.value.1 + zeros))
  }

  /** One of the two `while` loops of `calculate_life_support_rates`. */
  method FilterLoop(codes: seq<string>, oxygen: bool) returns (r: Result<seq<string>>)
    ensures r == Filter(codes, 0, MaxLength(codes), oxygen)
  {
    var bound := MaxLength(codes);
    var list := codes;
    var index := 0;
    while |list| > 1
      invariant forall e :: e in list ==> |e| <= bound
      invariant Filter(codes, 0, bound, oxygen) == Filter(list, index, bound, oxygen)
      decreases bound - index
    {
      var counts := CountColumn(list, index);
      if counts.Err? {
        return Err(counts.fault);
      }
      var (ones, zeros) := counts.value;
      assert index < |list[0]| <= bound;
      list := Keep(list, index, Wanted(oxygen, ones, zeros));
      index := index + 1;
    }
    return Ok(list);
  }

  /** `calculate_life_support_rates` with its final guard as written. */
  method CalculateLifeSupportRates(codes: seq<string>) returns (r: Result<(string, string)>)
    ensures r == LifeSupportAsWritten(codes)
  {
    var oxygen := FilterLoop(codes, true);
    if oxygen.Err? {
      return Err(oxygen.fault);
    }
    var scrubber := FilterLoop(codes, false);
    if scrubber.Err? {
      return Err(scrubber.fault);
    }
    if |oxygen.value| != 1 && |scrubber.value| != 1 {
      return Ok(("", ""));
    }
    if oxygen.value == [] || scrubber.value == [] {
      return Err(EmptyList);
    }
    return Ok((oxygen.value[0], scrubber.value[0]));
  }
}
