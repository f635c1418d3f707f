/**
 * The bracket checker of 2021/day10/src/main.rs: symbols, the stack scan
 * that finds the first corrupted closer of a line, the closers that
 * complete an incomplete line, and the completion score.
 */
module SyntaxScoring {

  datatype Symbol = ParenO | ParenC | BrackO | BrackC | CurlyO | CurlyC | AngleO | AngleC

  datatype Fault =
    | EmptyStack                 // `stack.pop().unwrap()` for a closer with nothing open
    | NoIncompleteValue(s: Symbol)

  datatype Result<T> = Ok(value: T) | Err(fault: Fault)

  function ValueCorrupt(s: Symbol): int
  {
    match s
    case ParenO => 3
    case ParenC => 3
    case BrackO => 57
    case BrackC => 57
    case CurlyO => 1197
    case CurlyC => 1197
    case AngleO => 25137
    case AngleC => 25137
  }

  /** `value_incomplete`: 1 to 4 for the closers; an opener panics. */
  function ValueIncomplete(s: Symbol): (r: Result<int>)
    ensures r.Ok? <==> IsClose(s)
    ensures r.Ok? ==> 1 <= r.value <= 4
  {
    match s
    case ParenC => Ok(1)
    case BrackC => Ok(2)
    case CurlyC => Ok(3)
    case AngleC => Ok(4)
    case _ => Err(NoIncompleteValue(s))
  }

  predicate IsOpen(s: Symbol)
  {
    s == ParenO || s == BrackO || s == CurlyO || s == AngleO
  }

  predicate IsClose(s: Symbol)
  {
    s == ParenC || s == BrackC || s == CurlyC || s == AngleC
  }

  /** `matches`: an opener matches only its own closer; a closer matches nothing. */
  predicate Matches(s: Symbol, other: Symbol)
  {
    match s
    case ParenO => other == ParenC
    case BrackO => other == BrackC
    case CurlyO => other == CurlyC
    case AngleO => other == AngleC
    case _ => false
  }

  function Opposite(s: Symbol): Symbol
  {
    match s
    case ParenO => ParenC
    case ParenC => ParenO
    case BrackO => BrackC
    case BrackC => BrackO
    case CurlyO => CurlyC
    case CurlyC => CurlyO
    case AngleO => AngleC
    case AngleC => AngleO
  }

  /**
   * Every symbol is exactly one of opener and closer; `opposite` is an
   * involution exchanging the two kinds; and `matches` holds exactly for
   * an opener and its opposite.
   */
  lemma SymbolLaws(s: Symbol, c: Symbol)
    ensures IsOpen(s) != IsClose(s)
    ensures Opposite(Opposite(s)) == s
    ensures IsOpen(s) <==> IsClose(Opposite(s))
    ensures Matches(s, c) <==> IsOpen(s) && c == Opposite(s)
    ensures ValueCorrupt(s) == ValueCorrupt(Opposite(s))
  {
  }

  /** `Symbol::from`: the eight bracket characters; anything else is dropped. */
  function From(c: char): (r: Option<Symbol>)
    ensures r.Some? <==> c in "()[]{}<>"
  {
    match c
    case '(' => Some(ParenO)
    case ')' => Some(ParenC)
    case '[' => Some(BrackO)
    case ']' => Some(BrackC)
    case '{' => Some(CurlyO)
    case '}' => Some(CurlyC)
    case '<' => Some(AngleO)
    case '>' => Some(AngleC)
    case _ => None
  }

  datatype Option<T> = None | Some(value: T)

  /** The `filter_map` of `parse_input`: the symbols of a line, other characters skipped. */
  function ParseLine(line: string): (r: seq<Symbol>)
    ensures |r| <= |line|
  {
    if line == [] then []
    else match From(line[0])
      case Some(s) => [s] + ParseLine(line[1..])
      case None => ParseLine(line[1..])
  }

  // The scan of `corrupted_lines`.

  /** The first closer that does not match the popped opener, starting from `stack`. */
  function FirstBad(line: seq<Symbol>, stack: seq<Symbol>): Result<Option<Symbol>>
    decreases |line|
  {
    if line == [] then Ok(None)
    else
      var s := line[0];
      if IsOpen(s) then FirstBad(line[1..], stack + [s])
      else if stack == [] then Err(EmptyStack)
      else if !Matches(stack[|stack| - 1], s) then Ok(Some(s))
      else FirstBad(line[1..], stack[..|stack| - 1])
  }

  /** The scan of each line of `corrupted_lines`: push openers, pop for closers, stop at the first mismatch. */
  method ScanLine(line: seq<Symbol>) returns (r: Result<Option<Symbol>>)
    ensures r == FirstBad(line, [])
  {
    var stack: seq<Symbol> := [];
    var i := 0;
    while i < |line|
      invariant 0 <= i <= |line|
      invariant FirstBad(line, []) == FirstBad(line[i..], stack)
    {
      assert line[i..][0] == line[i] && line[i..][1..] == line[i + 1..];
      var symbol := line[i];
      if IsOpen(symbol) {
        stack := stack + [symbol];
        i := i + 1;
        continue;
      }
      if stack == [] {
        return Err(EmptyStack);
      }
      var check := stack[|stack| - 1];
      stack := stack[..|stack| - 1];
      if !Matches(check, symbol) {
        return Ok(Some(symbol));
      }
      i := i + 1;
    }
    assert line[i..] == [];
    return Ok(None);
  }

  /** The reports of `corrupted_lines` for lines[from..]: at most one per line, in line order. */
  function Corrupted(lines: seq<seq<Symbol>>, from: nat): Result<seq<(nat, Symbol)>>
    requires from <= |lines|
    decreases |lines| - from
  {
    if from == |lines| then Ok([])
    else
      match FirstBad(lines[from], [])
      case Err(f) => Err(f)
      case Ok(bad) =>
        match Corrupted(lines, from + 1)
        case Err(f) => Err(f)
        case Ok(more) => Ok((if bad.Some? then [(from, bad.value)] else []) + more)
  }

  /** A line is reported, with its symbol, exactly when its scan finds a mismatched closer. */
  lemma {:induction false} CorruptedReports(lines: seq<seq<Symbol>>, from: nat, index: nat, s: Symbol)
    requires from <= |lines| && Corrupted(lines, from).Ok?
    ensures (index, s) in Corrupted(lines, from).value <==> from <= index < |lines| && FirstBad(lines[index], []) == Ok(Some(s))
    decreases |lines| - from
  {
    if from < |lines| {
      CorruptedReports(lines, from + 1, index, s);
    }
  }

  method CorruptedLines(lines: seq<seq<Symbol>>) returns (r: Result<seq<(nat, Symbol)>>)
    ensures r == Corrupted(lines, 0)
  {
    var bad: seq<(nat, Symbol)> := [];
    var index := 0;
    PrefixNothing(Corrupted(lines, 0));
    while index < |lines|
      invariant 0 <= index <= |lines|
      invariant Corrupted(lines, 0) == Prefix(bad, Corrupted(lines, index))
    {
      var found := ScanLine(lines[index]);
      if found.Err? {
        return Err(found.fault);
      }
      ghost var q: seq<(nat, Symbol)> := if found.value.Some? then [(index, found.value.value)] else [];
      assert Corrupted(lines, index) == Prefix(q, Corrupted(lines, index + 1));
      PrefixTwice(bad, q, Corrupted(lines, index + 1));
      if found.value.Some? {
        bad := bad + [(index, found.value.value)];
      } else {
        assert bad + q == bad;
      }
      index := index + 1;
    }
    assert bad + [] == bad;
    return Ok(bad);
  }

  /** The results collected so far, in front of the rest of a loop's result. */
  function Prefix<T>(p: seq<T>, r: Result<seq<T>>): Result<seq<T>>
  {
    if r.Err? then r else Ok(p + r.value)
  }

  lemma PrefixNothing<T>(r: Result<seq<T>>)
    ensures Prefix([], r) == r
  {
    if r.Ok? {
      assert [] + r.value == r.value;
    }
  }

  lemma PrefixTwice<T>(p: seq<T>, q: seq<T>, r: Result<seq<T>>)
    ensures Prefix(p, Prefix(q, r)) == Prefix(p + q, r)
  {
    if r.Ok? {
      assert p + (q + r.value) == (p + q) + r.value;
    }
  }

  // The scan of `missing_symbols`.

  /** The stack left after a line, popping for every closer whether or not it matches. */
  function Leftover(line: seq<Symbol>, stack: seq<Symbol>): Result<seq<Symbol>>
    decreases |line|
  {
    if line == [] then Ok(stack)
    else
      var s := line[0];
      if IsOpen(s) then Leftover(line[1..], stack + [s])
      else if stack == [] then Err(EmptyStack)
      else Leftover(line[1..], stack[..|stack| - 1])
  }

  /** The closers that finish a leftover stack: opposites, innermost first. */
  function Completion(stack: seq<Symbol>): (r: seq<Symbol>)
    ensures |r| == |stack|
  {
    if stack == [] then [] else [Opposite(stack[|stack| - 1])] + Completion(stack[..|stack| - 1])
  }

  /** A stack built from openers only stays all openers. */
  predicate AllOpen(stack: seq<Symbol>)
  {
    forall i :: 0 <= i < |stack| ==> IsOpen(stack[i])
  }

  lemma {:induction false} LeftoverOpen(line: seq<Symbol>, stack: seq<Symbol>)
    requires AllOpen(stack) && Leftover(line, stack).Ok?
    ensures AllOpen(Leftover(line, stack).value)
    decreases |line|
  {
    if line != [] {
      var s := line[0];
      if IsOpen(s) {
        LeftoverOpen(line[1..], stack + [s]);
      } else {
        LeftoverOpen(line[1..], stack[..|stack| - 1]);
      }
    }
  }

  /** The completion of an all-opener stack holds only closers, each of which has an incomplete value. */
  lemma {:induction false} CompletionCloses(stack: seq<Symbol>)
    requires AllOpen(stack)
    ensures forall i :: 0 <= i < |stack| ==> IsClose(Completion(stack)[i])
    decreases |stack|
  {
    if stack != [] {
      CompletionCloses(stack[..|stack| - 1]);
      var r := Completion(stack);
      assert forall i :: 1 <= i < |r| ==> r[i] == Completion(stack[..|stack| - 1])[i - 1];
    }
  }

  /** Scanning two pieces of a line one after the other is scanning the whole. */
  lemma {:induction false} LeftoverAppend(a: seq<Symbol>, b: seq<Symbol>, stack: seq<Symbol>)
    ensures Leftover(a + b, stack) == (match Leftover(a, stack) case Err(f) => Err(f) case Ok(mid) => Leftover(b, mid))
    decreases |a|
  {
    if a != [] {
      assert (a + b)[0] == a[0] && (a + b)[1..] == a[1..] + b;
      if IsOpen(a[0]) {
        LeftoverAppend(a[1..], b, stack + [a[0]]);
      } else if stack != [] {
        LeftoverAppend(a[1..], b, stack[..|stack| - 1]);
      }
    } else {
      assert a + b == b;
    }
  }

  /** The completion really completes: every closer matches the opener it pops, and the stack ends empty. */
  lemma {:induction false} CompletionBalances(stack: seq<Symbol>)
    requires AllOpen(stack)
    ensures Leftover(Completion(stack), stack) == Ok([])
    ensures FirstBad(Completion(stack), stack) == Ok(None)
    decreases |stack|
  {
    if stack != [] {
      var top := stack[|stack| - 1];
      var c := Completion(stack);
      assert c[0] == Opposite(top) && c[1..] == Completion(stack[..|stack| - 1]);
      SymbolLaws(top, Opposite(top));
      CompletionBalances(stack[..|stack| - 1]);
    }
  }

  /** An incomplete line followed by its completion leaves nothing open. */
  lemma CompletedLine(line: seq<Symbol>)
    requires Leftover(line, []).Ok?
    ensures Leftover(line + Completion(Leftover(line, []).value), []) == Ok([])
  {
    var stack := Leftover(line, []).value;
    LeftoverOpen(line, []);
    CompletionBalances(stack);
    LeftoverAppend(line, Completion(stack), []);
  }

  /** The completions `missing_symbols` returns for lines[from..], one for each line with openers left. */
  function Missing(lines: seq<seq<Symbol>>, from: nat): Result<seq<seq<Symbol>>>
    requires from <= |lines|
    decreases |lines| - from
  {
    if from == |lines| then Ok([])
    else
      match Leftover(lines[from], [])
      case Err(f) => Err(f)
      case Ok(stack) =>
        match Missing(lines, from + 1)
        case Err(f) => Err(f)
        case Ok(more) => Ok((if |stack| > 0 then [Completion(stack)] else []) + more)
  }

  /** Every completion returned is non-empty and made of closers. */
  lemma {:induction false} MissingAreClosers(lines: seq<seq<Symbol>>, from: nat)
    requires from <= |lines| && Missing(lines, from).Ok?
    ensures forall k, i :: 0 <= k < |Missing(lines, from).value| && 0 <= i < |Missing(lines, from).value[k]| ==>
              IsClose(Missing(lines, from).value[k][i])
    ensures forall k :: 0 <= k < |Missing(lines, from).value| ==> Missing(lines, from).value[k] != []
    decreases |lines| - from
  {
    if from < |lines| {
      var stack := Leftover(lines[from], []).value;
      LeftoverOpen(lines[from], []);
      CompletionCloses(stack);
      MissingAreClosers(lines, from + 1);
      var r := Missing(lines, from).value;
      var more := Missing(lines, from + 1).value;
      if |stack| > 0 {
        assert forall k :: 1 <= k < |r| ==> r[k] == more[k - 1];
      } else {
        assert r == more;
      }
    }
  }

  /** The inner loop of `missing_symbols`, then the reversed, opposed stack. */
  method MissingForLine(line: seq<Symbol>) returns (r: Result<seq<Symbol>>)
    ensures Leftover(line, []).Err? ==> r == Err(Leftover(line, []).fault)
    ensures Leftover(line, []).Ok? ==> r == Ok(Completion(Leftover(line, []).value))
  {
    var stack: seq<Symbol> := [];
    var i := 0;
    while i < |line|
      invariant 0 <= i <= |line|
      invariant Leftover(line, []) == Leftover(line[i..], stack)
    {
      assert line[i..][0] == line[i] && line[i..][1..] == line[i + 1..];
      var symbol := line[i];
      if IsOpen(symbol) {
        stack := stack + [symbol];
      } else {
        if stack == [] {
          return Err(EmptyStack);
        }
        stack := stack[..|stack| - 1];
      }
      i := i + 1;
    }
    assert line[i..] == [];
    var closing: seq<Symbol> := [];
    var k := |stack|;
    assert stack[..k] == stack;
    assert [] + Completion(stack) == Completion(stack);
    while k > 0
      invariant 0 <= k <= |stack|
      invariant closing + Completion(stack[..k]) == Completion(stack)
    {
      assert stack[..k][..k - 1] == stack[..k - 1];
      assert Completion(stack[..k]) == [Opposite(stack[k - 1])] + Completion(stack[..k - 1]);
      closing := closing + [Opposite(stack[k - 1])];
      k := k - 1;
    }
    assert closing + [] == closing;
    return Ok(closing);
  }

  method MissingSymbols(lines: seq<seq<Symbol>>) returns (r: Result<seq<seq<Symbol>>>)
    ensures r == Missing(lines, 0)
  {
    var missing: seq<seq<Symbol>> := [];
    var index := 0;
    PrefixNothing(Missing(lines, 0));
    while index < |lines|
      invariant 0 <= index <= |lines|
      invariant Missing(lines, 0) == Prefix(missing, Missing(lines, index))
    {
      var closing := MissingForLine(lines[index]);
      if closing.Err? {
        return Err(closing.fault);
      }
      ghost var q: seq<seq<Symbol>> := if closing.value != [] then [closing.value] else [];
      assert Missing(lines, index) == Prefix(q, Missing(lines, index + 1));
      PrefixTwice(missing, q, Missing(lines, index + 1));
      if closing.value != [] {
        missing := missing + [closing.value];
      } else {
        assert missing + q == missing;
      }
      index := index + 1;
    }
    assert missing + [] == missing;
    return Ok(missing);
  }

  /** The completion score: each closer's value added to five times the score so far. */
  function Score(line: seq<Symbol>, acc: int): Result<int>
    decreases |line|
  {
    if line == [] then Ok(acc)
    else
      match ValueIncomplete(line[0])
      case Err(f) => Err(f)
      case Ok(v) => Score(line[1..], acc * 5 + v)
  }

  /** A reference reading: the closers' values as the digits of a base-5 number, first closer most significant. */
  function Base5(values: seq<int>): int
  {
    if values == [] then 0 else Base5(values[..|values| - 1]) * 5 + values[|values| - 1]
  }

  function Pow5(n: nat): int
  {
    if n == 0 then 1 else 5 * Pow5(n - 1)
  }

  function IncompleteValues(line: seq<Symbol>): (r: seq<int>)
    requires forall i :: 0 <= i < |line| ==> IsClose(line[i])
    ensures |r| == |line|
  {
    if line == [] then [] else [ValueIncomplete(line[0]).value] + IncompleteValues(line[1..])
  }

  /** A line of closers always scores, and its score is acc shifted by its length plus the base-5 value of its closers. */
  lemma {:induction false} ScoreIsBase5(line: seq<Symbol>, acc: int)
    requires forall i :: 0 <= i < |line| ==> IsClose(line[i])
    ensures Score(line, acc) == Ok(acc * Pow5(|line|) + Base5(IncompleteValues(line)))
    decreases |line|
  {
    if line != [] {
      var v := ValueIncomplete(line[0]).value;
      var rest := IncompleteValues(line[1..]);
      assert Score(line, acc) == Score(line[1..], acc * 5 + v);
      ScoreIsBase5(line[1..], acc * 5 + v);
      assert IncompleteValues(line) == [v] + rest;
      Base5Front(v, rest);
      Shifted(acc, v, Pow5(|rest|), Base5(rest));
    }
  }

  /** Shifting acc one digit and then by p equals shifting it by 5 * p. */
  lemma Shifted(acc: int, v: int, p: int, b: int)
    ensures (acc * 5 + v) * p + b == acc * (5 * p) + (v * p + b)
  {
    calc {
      (acc * 5 + v) * p + b;
      acc * 5 * p + v * p + b;
      acc * (5 * p) + (v * p + b);
    }
  }

  lemma {:induction false} Base5Front(v: int, rest: seq<int>)
    ensures Base5([v] + rest) == v * Pow5(|rest|) + Base5(rest)
    decreases |rest|
  {
    if rest != [] {
      var all := [v] + rest;
      assert all[..|all| - 1] == [v] + rest[..|rest| - 1];
      Base5Front(v, rest[..|rest| - 1]);
    } else {
      assert [v] + rest == [v];
      assert [v][..0] == [];
    }
  }

  /** The inner `for symbol in line` loop of `main`'s scoring. */
  method IncompleteSum(line: seq<Symbol>) returns (r: Result<int>)
    ensures r == Score(line, 0)
  {
    var incompleteSum := 0;
    var i := 0;
    while i < |line|
      invariant 0 <= i <= |line|
      invariant Score(line, 0) == Score(line[i..], incompleteSum)
    {
      assert line[i..][0] == line[i] && line[i..][1..] == line[i + 1..];
      var value := ValueIncomplete(line[i]);
      if value.Err? {
        return Err(value.fault);
      }
      incompleteSum := incompleteSum * 5 + value.value;
      i := i + 1;
    }
    assert line[i..] == [];
    return Ok(incompleteSum);
  }
}
