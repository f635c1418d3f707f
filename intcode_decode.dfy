/**
 * Instruction decoding shared by the IntCode machines.
 *
 * A memory word holds the instruction in its two lowest decimal digits and one
 * parameter mode per following digit, least significant first.  The machines
 * compute these with Rust's `%` and `/` on i64, which truncate toward zero, so
 * the decoding below is written with `Rem`, the truncating remainder.
 */
module IntcodeDecode {

  /** Why a machine panics. */
  datatype Fault =
    | OutOfRange          // a vector index (or a negative value cast to usize) outside the vector
    | BadMode(digit: int) // a mode digit other than 0, 1 or 2 (validating decoders only)
    | BadDestination      // an immediate-mode write target
    | BadOpcode(opcode: int)
    | NoInput             // an input was required and none could be read
    | NoOutput            // a caller needed an output value that was never produced
    | Overflow            // an unsigned result outside its integer type (a panic in debug builds)
    | Exhausted           // the fuel bound of the model ran out (not a panic of the source)

  datatype Result<T> = Ok(value: T) | Err(fault: Fault)
  {
    predicate IsFailure() { Err? }

    function PropagateFailure<U>(): Result<U>
      requires Err?
    {
      Err(fault)
    }

    function Extract(): T
      requires Ok?
    {
      value
    }
  }

  /** Rust's `a % b` for a positive divisor: the remainder takes the sign of `a`. */
  function Rem(a: int, b: int): (r: int)
    requires b > 0
    ensures -b < r < b
    ensures a >= 0 ==> 0 <= r && r == a % b
    ensures a <= 0 ==> r <= 0 && r == -((-a) % b)
  {
    if a >= 0 then a % b else -((-a) % b)
  }

  /** `(x - x % 10) / 10`: drops the lowest decimal digit, an exact division. */
  function Shift(x: int): (r: int)
    ensures x == 10 * r + Rem(x, 10)
    ensures r == if x >= 0 then x / 10 else -((-x) / 10)
  {
    (x - Rem(x, 10)) / 10
  }

  /** The value left after `k` shifts. */
  function ShiftN(x: int, k: nat): int
  {
    if k == 0 then x else Shift(ShiftN(x, k - 1))
  }

  /** The mode digit for parameter `i` (0-based) of a mode word. */
  function DigitAt(x: int, i: nat): int
  {
    Rem(ShiftN(x, i), 10)
  }

  /** `(w - w % 100) / 100`: the mode digits of a word. */
  function ModeWord(w: int): (r: int)
    ensures w == 100 * r + Rem(w, 100)
    ensures r == if w >= 0 then w / 100 else -((-w) / 100)
  {
    (w - Rem(w, 100)) / 100
  }

  function Pow10(k: nat): (r: nat)
    ensures r > 0
  {
    if k == 0 then 1 else 10 * Pow10(k - 1)
  }

  lemma {:induction false} MulAtLeast(a: int, b: int)
    requires a > 0 && b > 0
    ensures a * b >= a
  {
    if b > 1 {
      MulAtLeast(a, b - 1);
      assert a * b == a * (b - 1) + a;
    }
  }

  lemma DivUnique(x: int, d: int, q: int, r: int)
    requires d > 0 && 0 <= r < d && x == d * q + r
    ensures x / d == q && x % d == r
  {
    var q0, r0 := x / d, x % d;
    assert x == d * q0 + r0;
    if q0 > q {
      MulAtLeast(d, q0 - q);
    } else if q0 < q {
      MulAtLeast(d, q - q0);
    }
  }

  /** Dividing by a and then by b is dividing by a * b. */
  lemma DivDiv(x: int, a: int, b: int)
    requires x >= 0 && a > 0 && b > 0
    ensures x / a / b == x / (a * b)
  {
    var q := x / a;
    var q2, r2 := q / b, q % b;
    assert x == a * q + x % a;
    assert q == b * q2 + r2;
    assert a * q == (a * b) * q2 + a * r2;
    assert a * r2 <= a * (b - 1) by {
      if r2 < b - 1 {
        MulAtLeast(a, b - 1 - r2);
        assert a * (b - 1) == a * r2 + a * (b - 1 - r2);
      }
    }
    assert a * (b - 1) == a * b - a;
    DivUnique(x, a * b, q2, a * r2 + x % a);
  }

  /** For a non-negative word, `k` shifts divide by 10^k. */
  lemma {:induction false} ShiftNDecimal(x: int, k: nat)
    requires x >= 0
    ensures ShiftN(x, k) == x / Pow10(k)
  {
    if k > 0 {
      ShiftNDecimal(x, k - 1);
      var p := Pow10(k - 1);
      var q := x / p;
      assert q >= 0;
      assert ShiftN(x, k) == Shift(q) == q / 10;
      DivDiv(x, p, 10);
      assert Pow10(k) == p * 10;
    }
  }

  /** Shifting commutes with negation, so a negative word has negated digits. */
  lemma {:induction false} ShiftNNegate(x: int, k: nat)
    ensures ShiftN(-x, k) == -ShiftN(x, k)
  {
    if k > 0 {
      ShiftNNegate(x, k - 1);
      var y := ShiftN(x, k - 1);
      assert Rem(-y, 10) == -Rem(y, 10);
      assert -y == 10 * Shift(-y) + Rem(-y, 10);
      assert y == 10 * Shift(y) + Rem(y, 10);
    }
  }

  /**
   * For a non-negative word, the instruction is its value modulo 100 and the
   * mode digit of parameter i is decimal digit i+2 of the word.  For a
   * negative word every digit is the negation of the digit of -w.
   */
  lemma DigitsOfWord(w: int, i: nat)
    ensures w >= 0 ==> Rem(w, 100) == w % 100 && DigitAt(ModeWord(w), i) == (w / Pow10(i + 2)) % 10
    ensures w < 0 ==> DigitAt(ModeWord(w), i) == -DigitAt(ModeWord(-w), i)
  {
    if w >= 0 {
      DigitsOfNonnegative(w, i);
    } else {
      DigitsOfNegative(w, i);
    }
  }

  lemma DigitsOfNonnegative(w: int, i: nat)
    requires w >= 0
    ensures DigitAt(ModeWord(w), i) == (w / Pow10(i + 2)) % 10
  {
    var m := ModeWord(w);
    assert m == w / 100 && m >= 0;
    ShiftNDecimal(m, i);
    DivDiv(w, 100, Pow10(i));
    assert Pow10(i + 2) == 100 * Pow10(i) by {
      assert Pow10(i + 2) == 10 * Pow10(i + 1);
      assert Pow10(i + 1) == 10 * Pow10(i);
    }
    assert ShiftN(m, i) >= 0;
  }

  lemma DigitsOfNegative(w: int, i: nat)
    requires w < 0
    ensures DigitAt(ModeWord(w), i) == -DigitAt(ModeWord(-w), i)
  {
    assert ModeWord(w) == -ModeWord(-w) by {
      assert Rem(w, 100) == -Rem(-w, 100);
    }
    ShiftNNegate(ModeWord(-w), i);
    var y := ShiftN(ModeWord(-w), i);
    assert Rem(-y, 10) == -Rem(y, 10);
  }

  datatype Mode = Position | Immediate | Relative

  predicate ValidDigit(d: int) { 0 <= d <= 2 }

  /** The mode a valid digit names. */
  function ModeFor(d: int): Mode
    requires ValidDigit(d)
  {
    if d == 0 then Position else if d == 1 then Immediate else Relative
  }

  /** A decoded instruction whose modes have been validated. */
  datatype Instruction = Instruction(opcode: int, params: seq<int>, modes: seq<Mode>)

  /** A decoded instruction that keeps the raw mode digits. */
  datatype RawInstruction = RawInstruction(opcode: int, params: seq<int>, digits: seq<int>)

  /**
   * What a raw decoder returns for the word at `pos` and `len` parameters.
   * Only the vector indexing can fail.
   */
  function DecodeRaw(words: seq<int>, pos: int, len: nat): (r: Result<RawInstruction>)
    ensures r.Ok? ==> |r.value.params| == len && |r.value.digits| == len
  {
    if 0 <= pos && pos + len < |words| then
      Ok(RawInstruction(Rem(words[pos], 100), words[pos + 1..pos + len + 1],
                        seq(len, i requires 0 <= i < len => DigitAt(ModeWord(words[pos]), i))))
    else
      Err(OutOfRange)
  }

  /** The first of the first `len` digits of `x`, from `i` on, that is not a mode; `len` if none. */
  function FirstInvalid(x: int, i: nat, len: nat): (r: nat)
    requires i <= len
    ensures i <= r <= len
    ensures forall j :: i <= j < r ==> ValidDigit(DigitAt(x, j))
    ensures r < len ==> !ValidDigit(DigitAt(x, r))
    decreases len - i
  {
    if i == len then len
    else if !ValidDigit(DigitAt(x, i)) then i
    else FirstInvalid(x, i + 1, len)
  }

  /**
   * What a validating decoder returns.  The decoder pushes parameter k, then
   * checks mode k, for k = 1..len, so the first failing index or mode decides
   * the fault.
   */
  function Decode(words: seq<int>, pos: int, len: nat): (r: Result<Instruction>)
    ensures r.Ok? ==> |r.value.params| == len && |r.value.modes| == len
  {
    if !(0 <= pos < |words|) then Err(OutOfRange)
    else
      var x := ModeWord(words[pos]);
      var b := FirstInvalid(x, 0, len);
      if b < len && pos + b + 1 < |words| then Err(BadMode(DigitAt(x, b)))
      else if pos + len >= |words| then Err(OutOfRange)
      else
        Ok(Instruction(Rem(words[pos], 100), words[pos + 1..pos + len + 1],
                       seq(len, i requires 0 <= i < len => ModeFor(DigitAt(x, i)))))
  }

  /**
   * The validating decoder agrees with the raw one wherever the digits are
   * modes: it succeeds exactly when the raw decoder does and every digit is 0,
   * 1 or 2, and it then maps digit i to mode i.  A BadMode fault reports a
   * digit that names no mode.
   */
  lemma DecodeRefinesRaw(words: seq<int>, pos: int, len: nat)
    ensures Decode(words, pos, len).Ok? <==>
              DecodeRaw(words, pos, len).Ok? && forall i :: 0 <= i < len ==> ValidDigit(DecodeRaw(words, pos, len).value.digits[i])
    ensures Decode(words, pos, len).Ok? ==>
              var d, raw := Decode(words, pos, len).value, DecodeRaw(words, pos, len).value;
              d.opcode == raw.opcode && d.params == raw.params &&
              forall i :: 0 <= i < len ==> d.modes[i] == ModeFor(raw.digits[i])
    ensures Decode(words, pos, len).Err? && Decode(words, pos, len).fault.BadMode? ==>
              !ValidDigit(Decode(words, pos, len).fault.digit)
    ensures Decode(words, pos, len).Err? ==>
              Decode(words, pos, len).fault.OutOfRange? || Decode(words, pos, len).fault.BadMode?
  {
    if 0 <= pos < |words| {
      var x := ModeWord(words[pos]);
      var b := FirstInvalid(x, 0, len);
      if pos + len < |words| && b < len {
        var raw := DecodeRaw(words, pos, len).value;
        assert !ValidDigit(raw.digits[b]);
      }
    }
  }

  /** Fetching with no parameters reads one word and never checks a mode. */
  lemma FetchOnly(words: seq<int>, pos: int)
    ensures Decode(words, pos, 0).Ok? <==> 0 <= pos < |words|
    ensures Decode(words, pos, 0).Ok? ==> Decode(words, pos, 0).value == Instruction(Rem(words[pos], 100), [], [])
  {
  }

  /** A word below 100 carries no mode digits: every parameter is in position mode (raw digit 0). */
  lemma {:induction false} PlainWord(words: seq<int>, pos: int, len: nat)
    requires 0 <= pos && pos + len < |words| && 0 <= words[pos] < 100
    ensures Decode(words, pos, len) == Ok(Instruction(words[pos], words[pos + 1..pos + len + 1], seq(len, i => Position)))
    ensures DecodeRaw(words, pos, len) == Ok(RawInstruction(words[pos], words[pos + 1..pos + len + 1], seq(len, i => 0)))
  {
    var x := ModeWord(words[pos]);
    assert x == 0;
    forall i: nat | i < len
      ensures DigitAt(x, i) == 0
    {
      ShiftNDecimal(x, i);
    }
    assert FirstInvalid(x, 0, len) == len;
    assert seq(len, i requires 0 <= i < len => ModeFor(DigitAt(x, i))) == seq(len, i => Position);
    assert seq(len, i requires 0 <= i < len => DigitAt(x, i)) == seq(len, i => 0);
  }

  /**
   * The raw decoding loop: pushes each parameter and the current lowest digit,
   * then shifts the mode word.
   */
  method ParseOpcodeRaw(words: seq<int>, pos: int, len: nat) returns (r: Result<RawInstruction>)
    ensures r == DecodeRaw(words, pos, len)
  {
    if !(0 <= pos < |words|) {
      return Err(OutOfRange);
    }
    var opcode := words[pos];
    var instr := Rem(opcode, 100);
    opcode := (opcode - instr) / 100;
    ghost var x := ModeWord(words[pos]);
    var params: seq<int> := [];
    var digits: seq<int> := [];
    var offset := 1;
    while offset < len + 1
      invariant 1 <= offset <= len + 1
      invariant pos + offset - 1 < |words|
      invariant params == words[pos + 1..pos + offset]
      invariant opcode == ShiftN(x, offset - 1)
      invariant |digits| == offset - 1
      invariant forall i :: 0 <= i < offset - 1 ==> digits[i] == DigitAt(x, i)
    {
      if pos + offset >= |words| {
        return Err(OutOfRange);
      }
      params := params + [words[pos + offset]];
      digits := digits + [Rem(opcode, 10)];
      opcode := (opcode - Rem(opcode, 10)) / 10;
      offset := offset + 1;
    }
    r := Ok(RawInstruction(instr, params, digits));
    assert digits == seq(len, i requires 0 <= i < len => DigitAt(x, i));
  }

  /**
   * The validating decoding loop of the program/memory machines: after
   * pushing each parameter it maps the current digit to a mode and panics on
   * any other digit.
   */
  method ParseOpcode(words: seq<int>, pos: int, len: nat) returns (r: Result<Instruction>)
    ensures r == Decode(words, pos, len)
  {
    if !(0 <= pos < |words|) {
      return Err(OutOfRange);
    }
    var opcode := words[pos];
    var instr := Rem(opcode, 100);
    opcode := (opcode - instr) / 100;
    ghost var x := ModeWord(words[pos]);
    ghost var b := FirstInvalid(x, 0, len);
    var params: seq<int> := [];
    var modes: seq<Mode> := [];
    var offset := 1;
    while offset < len + 1
      invariant 1 <= offset <= len + 1
      invariant pos + offset - 1 < |words|
      invariant offset - 1 <= b
      invariant params == words[pos + 1..pos + offset]
      invariant opcode == ShiftN(x, offset - 1)
      invariant |modes| == offset - 1
      invariant forall i :: 0 <= i < offset - 1 ==> ValidDigit(DigitAt(x, i)) && modes[i] == ModeFor(DigitAt(x, i))
    {
      if pos + offset >= |words| {
        return Err(OutOfRange);
      }
      params := params + [words[pos + offset]];
      var digit := Rem(opcode, 10);
      if digit == 0 {
        modes := modes + [Position];
      } else if digit == 1 {
        modes := modes + [Immediate];
      } else if digit == 2 {
        modes := modes + [Relative];
      } else {
        assert digit == DigitAt(x, offset - 1);
        assert b == offset - 1;
        return Err(BadMode(digit));
      }
      opcode := (opcode - Rem(opcode, 10)) / 10;
      offset := offset + 1;
    }
    r := Ok(Instruction(instr, params, modes));
    assert modes == seq(len, i requires 0 <= i < len => ModeFor(DigitAt(x, i)));
  }

  // The instruction table shared by every variant.

  /** What one instruction does when it does not panic. */
  datatype Event<M> =
    | Stepped(next: M)   // executed; the loop continues
    | Blocked            // opcode 3 with no input: `run` returns, nothing changed
    | Stopped(next: M)   // opcode 99: `halt` set, `run` returns

  /** How a call of `run` ends, when it ends within the fuel given. */
  datatype Outcome<M> =
    | Suspended(state: M)
    | Halted(state: M)
    | Faulted(fault: Fault)
    | OutOfFuel(state: M)

  function Cell(mem: seq<int>, a: int): (r: Result<int>)
    ensures r.Ok? <==> 0 <= a < |mem|
    ensures r.Ok? ==> r.value == mem[a]
  {
    if 0 <= a < |mem| then Ok(mem[a]) else Err(OutOfRange)
  }

  /** The value stored by opcodes 1 (sum), 2 (product), 7 (less than) and 8 (equals). */
  function Compute(op: int, a: int, b: int): int
    requires op in {1, 2, 7, 8}
  {
    if op == 1 then a + b
    else if op == 2 then a * b
    else if op == 7 then (if a < b then 1 else 0)
    else (if a == b then 1 else 0)
  }

  /** The number of parameters an opcode takes. */
  function Width(op: int): nat
  {
    if op in {1, 2, 7, 8} then 3 else if op in {5, 6} then 2 else if op in {3, 4, 9} then 1 else 0
  }

  /** `after` differs from `before` in at most one cell, which now holds `v`. */
  ghost predicate WritesOnly(before: seq<int>, after: seq<int>, v: int)
  {
    && |after| == |before|
    && exists t :: 0 <= t < |before| && after[t] == v && forall i :: 0 <= i < |before| && i != t ==> after[i] == before[i]
  }

  // Running a machine: the `run` loop of every variant, over its own step function.

  /** Applies `step` until it blocks, stops or panics, or until `fuel` instructions have executed. */
  function Iterate<M>(step: M -> Result<Event<M>>, m: M, fuel: nat): (r: Outcome<M>)
    ensures r.Suspended? ==> step(r.state) == Ok(Blocked)
    ensures r.Halted? ==> fuel > 0
    decreases fuel
  {
    if fuel == 0 then OutOfFuel(m)
    else
      match step(m)
      case Err(f) => Faulted(f)
      case Ok(Blocked) => Suspended(m)
      case Ok(Stopped(n)) => Halted(n)
      case Ok(Stepped(n)) => Iterate(step, n, fuel - 1)
  }

  /** The machine on which the run ends: the one whose step did not simply continue, or the last reached. */
  function Last<M>(step: M -> Result<Event<M>>, m: M, fuel: nat): M
    decreases fuel
  {
    if fuel == 0 then m
    else
      match step(m)
      case Ok(Stepped(n)) => Last(step, n, fuel - 1)
      case _ => m
  }

  /** How a run ends, read off the step taken on its last machine. */
  lemma {:induction false} IterateEnds<M>(step: M -> Result<Event<M>>, m: M, fuel: nat)
    ensures var k := Last(step, m, fuel);
            match Iterate(step, m, fuel)
            case OutOfFuel(n) => n == k
            case Suspended(n) => n == k && step(k) == Ok(Blocked)
            case Halted(n) => step(k) == Ok(Stopped(n))
            case Faulted(f) => step(k) == Err(f)
    decreases fuel
  {
    if fuel > 0 {
      match step(m)
      case Ok(Stepped(n)) =>
        IterateEnds(step, n, fuel - 1);
      case _ =>
    }
  }

  /** A run that ends within its fuel ends the same way with any more fuel. */
  lemma {:induction false} IterateMoreFuel<M>(step: M -> Result<Event<M>>, m: M, fuel: nat, extra: nat)
    requires !Iterate(step, m, fuel).OutOfFuel?
    ensures Iterate(step, m, fuel + extra) == Iterate(step, m, fuel)
    ensures Last(step, m, fuel + extra) == Last(step, m, fuel)
    decreases fuel
  {
    match step(m)
    case Ok(Stepped(n)) =>
      IterateMoreFuel(step, n, fuel - 1, extra);
    case _ =>
  }

  /** A reflexive, transitive relation that every continuing step respects holds between a run's start and its last machine. */
  lemma {:induction false} IterateKeeps<M>(step: M -> Result<Event<M>>, keeps: (M, M) -> bool, m: M, fuel: nat)
    requires forall a :: keeps(a, a)
    requires forall a, b, c :: keeps(a, b) && keeps(b, c) ==> keeps(a, c)
    requires forall a, b :: step(a) == Ok(Stepped(b)) ==> keeps(a, b)
    ensures keeps(m, Last(step, m, fuel))
    decreases fuel
  {
    if fuel > 0 {
      match step(m)
      case Ok(Stepped(n)) =>
        IterateKeeps(step, keeps, n, fuel - 1);
        assert keeps(m, n);
      case _ =>
    }
  }
}
