/**
 * The first IntCode machine, 2019/day2/src/main.rs: unsigned 64-bit words,
 * opcodes 1 (add), 2 (multiply) and 99 (halt), every operand an address,
 * and the noun/verb search of `main`.
 */
module Day2Intcode {
  import opened IntcodeDecode

  const U64: int := 0x1_0000_0000_0000_0000

  newtype u64 = x: int | 0 <= x < 0x1_0000_0000_0000_0000

  datatype State = State(count: nat, memory: seq<u64>)

  /**
   * One pass of the `loop`.  Every pass reads the four words at `count`
   * (so even 99 needs three words after it), and an opcode other than
   * 1, 2 and 99 leaves the state as it is: the loop `continue`s forever.
   * An add or a multiply computes its value before it indexes `dst`, so
   * an overflow is reported ahead of a destination out of range.
   */
  function Step(s: State): (r: Result<Event<State>>)
    ensures r.Ok? ==> s.count + 3 < |s.memory|
    ensures r.Ok? && r.value.Stopped? ==> r.value.next == s && s.memory[s.count] == 99
    ensures r.Ok? && s.memory[s.count] !in {1, 2, 99} ==> r == Ok(Stepped(s))
  {
    var mem := s.memory;
    if s.count + 3 >= |mem| then Err(OutOfRange)
    else
      var opcode, src1, src2, dst := mem[s.count], mem[s.count + 1], mem[s.count + 2], mem[s.count + 3];
      if opcode == 1 || opcode == 2 then
        if src1 as int >= |mem| || src2 as int >= |mem| then Err(OutOfRange)
        else
          var v := if opcode == 1 then mem[src1] as int + mem[src2] as int else mem[src1] as int * mem[src2] as int;
          if v >= U64 then Err(Overflow)
          else if dst as int >= |mem| then Err(OutOfRange)
          else Ok(Stepped(State(s.count + 4, mem[dst := v as u64])))
      else if opcode == 99 then Ok(Stopped(s))
      else Ok(Stepped(s))
  }

  function StepOf(): State -> Result<Event<State>>
  {
    s => Step(s)
  }

  /** `run(memory)`: memory[0] once the machine halts. */
  function Run(memory: seq<u64>, fuel: nat): (r: Result<u64>)
    ensures r.Ok? <==> Iterate(StepOf(), State(0, memory), fuel).Halted?
  {
    RunHalts(memory, fuel);
    match Iterate(StepOf(), State(0, memory), fuel)
    case Halted(s) => if |s.memory| > 0 then Ok(s.memory[0]) else Err(OutOfRange)
    case Faulted(f) => Err(f)
    case Suspended(_) => Err(Exhausted)
    case OutOfFuel(_) => Err(Exhausted)
  }

  /** A step never blocks, and a halted run keeps the memory length and lands on a 99. */
  lemma RunHalts(memory: seq<u64>, fuel: nat)
    ensures !Iterate(StepOf(), State(0, memory), fuel).Suspended?
    ensures Iterate(StepOf(), State(0, memory), fuel).Halted? ==>
              var s := Iterate(StepOf(), State(0, memory), fuel).state;
              |s.memory| == |memory| && s.count + 3 < |s.memory| && s.memory[s.count] == 99
  {
    IterateEnds(StepOf(), State(0, memory), fuel);
    IterateKeeps(StepOf(), (a: State, b: State) => |a.memory| == |b.memory|, State(0, memory), fuel);
  }

  /** An unknown opcode whose four words are present spins: the run never halts, whatever the fuel. */
  lemma {:induction false} UnknownOpcodeSpins(s: State, fuel: nat)
    requires s.count + 3 < |s.memory| && s.memory[s.count] !in {1, 2, 99}
    ensures Iterate(StepOf(), s, fuel) == OutOfFuel(s)
    decreases fuel
  {
    if fuel > 0 {
      assert StepOf()(s) == Ok(Stepped(s));
      UnknownOpcodeSpins(s, fuel - 1);
    }
  }

  /** The worked example of the puzzle: 1,9,10,3,2,3,11,0,99,30,40,50 ends with 3500 at address 0. */
  lemma WorkedExample()
    ensures Run([1, 9, 10, 3, 2, 3, 11, 0, 99, 30, 40, 50], 3) == Ok(3500)
  {
    var s0 := State(0, [1, 9, 10, 3, 2, 3, 11, 0, 99, 30, 40, 50]);
    var s1 := State(4, [1, 9, 10, 70, 2, 3, 11, 0, 99, 30, 40, 50]);
    var s2 := State(8, [3500, 9, 10, 70, 2, 3, 11, 0, 99, 30, 40, 50]);
    assert s0.memory[3 := 70] == s1.memory;
    assert s1.memory[0 := 3500] == s2.memory;
    assert Step(s0) == Ok(Stepped(s1));
    assert Step(s1) == Ok(Stepped(s2));
    assert Step(s2) == Ok(Stopped(s2));
  }

  /** The sum is computed before `dst` is indexed: 2^63 + 2^63 overflows although address 100 is out of range. */
  lemma OverflowBeforeDestination()
    ensures Step(State(0, [1, 4, 4, 100, 0x8000_0000_0000_0000])) == Err(Overflow)
  {
    var mem: seq<u64> := [1, 4, 4, 100, 0x8000_0000_0000_0000];
    assert mem[4] as int + mem[4] as int == U64;
  }

  lemma NonnegProduct(x: int, y: int)
    requires 0 <= x && 0 <= y
    ensures 0 <= x * y
  {
  }

  /** The `loop` of `run` over a copy of the memory, executing at most `fuel` passes. */
  method RunCopy(memory: seq<u64>, fuel: nat) returns (r: Result<u64>)
    ensures r == Run(memory, fuel)
  {
    var count: nat := 0;
    var mem := memory;
    var passes: nat := 0;
    while passes < fuel
      invariant passes <= fuel
      invariant Iterate(StepOf(), State(0, memory), fuel) == Iterate(StepOf(), State(count, mem), fuel - passes)
      decreases fuel - passes
    {
      assert StepOf()(State(count, mem)) == Step(State(count, mem));
      if count + 3 >= |mem| {
        return Err(OutOfRange);
      }
      var opcode, src1, src2, dst := mem[count], mem[count + 1], mem[count + 2], mem[count + 3];
      if opcode == 1 || opcode == 2 {
        if src1 as int >= |mem| || src2 as int >= |mem| {
          return Err(OutOfRange);
        }
        var x, y := mem[src1] as int, mem[src2] as int;
        var v := if opcode == 1 then x + y else x * y;
        assert 0 <= v by {
          if opcode == 2 {
            NonnegProduct(x, y);
          }
        }
        if v >= U64 {
          return Err(Overflow);
        }
        if dst as int >= |mem| {
          return Err(OutOfRange);
        }
        mem := mem[dst := v as u64];
        count := count + 4;
      } else if opcode == 99 {
        if |mem| == 0 {
          return Err(OutOfRange);
        }
        return Ok(mem[0]);
      }
      passes := passes + 1;
    }
    return Err(Exhausted);
  }

  // The search of `main`: nouns and verbs from 0 to 98.

  /** `memory` with noun and verb written to addresses 1 and 2. */
  function WithInputs(memory: seq<u64>, noun: u64, verb: u64): seq<u64>
    requires |memory| >= 3
  {
    memory[1 := noun][2 := verb]
  }

  /**
   * The answers `100 * noun + verb` printed by the passes of the nested
   * loops before the pass (noun, verb): every verb of the earlier nouns,
   * then the verbs of `noun` below `verb`.  A panic in any run ends the
   * program.
   */
  function Found(memory: seq<u64>, desired: u64, fuel: nat, noun: nat, verb: nat): Result<seq<int>>
    requires |memory| >= 3 && verb <= 99 && (noun < 99 || (noun == 99 && verb == 0))
    decreases noun, verb
  {
    if verb == 0 then
      if noun == 0 then Ok([]) else Found(memory, desired, fuel, noun - 1, 99)
    else
      var prev :- Found(memory, desired, fuel, noun, verb - 1);
      var out :- Run(WithInputs(memory, noun as u64, (verb - 1) as u64), fuel);
      Ok(if out == desired then prev + [100 * noun + verb - 1] else prev)
  }

  /** The pair (a, b) comes before the pass (noun, verb) of the loops. */
  predicate Before(a: int, b: int, noun: int, verb: int)
  {
    a < noun || (a == noun && b < verb)
  }

  /** Some pair tried before the pass (noun, verb) prints x: its run yields `desired`. */
  ghost predicate Tried(memory: seq<u64>, desired: u64, fuel: nat, noun: nat, verb: nat, x: int)
    requires |memory| >= 3
  {
    exists a: u64, b: u64 :: a < 99 && b < 99 && Before(a as int, b as int, noun, verb)
      && x == 100 * a as int + b as int && Run(WithInputs(memory, a, b), fuel) == Ok(desired)
  }

  /** A printed answer is exactly 100 * noun + verb for a pair, tried before (noun, verb), whose run yields `desired`. */
  lemma {:induction false} FoundExactly(memory: seq<u64>, desired: u64, fuel: nat, noun: nat, verb: nat, x: int)
    requires |memory| >= 3 && verb <= 99 && (noun < 99 || (noun == 99 && verb == 0))
    requires Found(memory, desired, fuel, noun, verb).Ok?
    ensures x in Found(memory, desired, fuel, noun, verb).value <==> Tried(memory, desired, fuel, noun, verb, x)
    decreases noun, verb
  {
    if verb == 0 {
      if noun > 0 {
        FoundExactly(memory, desired, fuel, noun - 1, 99, x);
        TriedRowEnd(memory, desired, fuel, noun, x);
      } else {
        TriedNone(memory, desired, fuel, x);
      }
    } else {
      FoundExactly(memory, desired, fuel, noun, verb - 1, x);
      TriedLast(memory, desired, fuel, noun, verb, x);
    }
  }

  /** Nothing is tried before the first pass. */
  lemma TriedNone(memory: seq<u64>, desired: u64, fuel: nat, x: int)
    requires |memory| >= 3
    ensures !Tried(memory, desired, fuel, 0, 0, x)
  {
  }

  /** What is tried before (noun, 0) is what is tried before (noun - 1, 99). */
  lemma TriedRowEnd(memory: seq<u64>, desired: u64, fuel: nat, noun: nat, x: int)
    requires |memory| >= 3 && 0 < noun
    ensures Tried(memory, desired, fuel, noun, 0, x) <==> Tried(memory, desired, fuel, noun - 1, 99, x)
  {
    if Tried(memory, desired, fuel, noun, 0, x) {
      var a, b :| a < 99 && b < 99 && Before(a as int, b as int, noun, 0)
        && x == 100 * a as int + b as int && Run(WithInputs(memory, a, b), fuel) == Ok(desired);
      assert Before(a as int, b as int, noun - 1, 99);
    }
  }

  /** The pairs tried before (noun, verb) are those tried before (noun, verb - 1) and the pair (noun, verb - 1). */
  lemma TriedLast(memory: seq<u64>, desired: u64, fuel: nat, noun: nat, verb: nat, x: int)
    requires |memory| >= 3 && noun < 99 && 0 < verb <= 99
    ensures Tried(memory, desired, fuel, noun, verb, x) <==>
              Tried(memory, desired, fuel, noun, verb - 1, x) ||
              (x == 100 * noun + verb - 1 && Run(WithInputs(memory, noun as u64, (verb - 1) as u64), fuel) == Ok(desired))
  {
    if Tried(memory, desired, fuel, noun, verb, x) {
      var a, b :| a < 99 && b < 99 && Before(a as int, b as int, noun, verb)
        && x == 100 * a as int + b as int && Run(WithInputs(memory, a, b), fuel) == Ok(desired);
      if Before(a as int, b as int, noun, verb - 1) {
        assert Tried(memory, desired, fuel, noun, verb - 1, x);
      } else {
        assert a as int == noun && b as int == verb - 1;
      }
    }
    if x == 100 * noun + verb - 1 && Run(WithInputs(memory, noun as u64, (verb - 1) as u64), fuel) == Ok(desired) {
      assert Before(noun, verb - 1, noun, verb);
    }
  }

  /** The pass after (noun, verb), with `next` == verb + 1, adds the answer of (noun, verb) when its run `out` yields `desired`. */
  lemma FoundNext(memory: seq<u64>, desired: u64, fuel: nat, noun: u64, verb: u64, next: nat, out: Result<u64>)
    requires |memory| >= 3 && noun < 99 && verb < 99 && next == verb as int + 1
    requires out == Run(WithInputs(memory, noun, verb), fuel)
    ensures Found(memory, desired, fuel, noun as int, verb as int).Err? ==>
              Found(memory, desired, fuel, noun as int, next) == Found(memory, desired, fuel, noun as int, verb as int)
    ensures Found(memory, desired, fuel, noun as int, verb as int).Ok? && out.Err? ==>
              Found(memory, desired, fuel, noun as int, next) == Err(out.fault)
    ensures Found(memory, desired, fuel, noun as int, verb as int).Ok? && out.Ok? ==>
              Found(memory, desired, fuel, noun as int, next) ==
                Ok(if out.value == desired
                   then Found(memory, desired, fuel, noun as int, verb as int).value + [100 * noun as int + verb as int]
                   else Found(memory, desired, fuel, noun as int, verb as int).value)
  {
  }

  /** Once a run has panicked in the row of `noun`, the row ends with that error, and so do the loops. */
  lemma {:induction false} FoundErrPersists(memory: seq<u64>, desired: u64, fuel: nat, noun: nat, verb: nat, last: nat)
    requires |memory| >= 3 && noun < 99 && verb <= last <= 99
    requires Found(memory, desired, fuel, noun, verb).Err?
    ensures Found(memory, desired, fuel, noun, last) == Found(memory, desired, fuel, noun, verb)
    decreases last - verb
  {
    if verb < last {
      FoundErrPersists(memory, desired, fuel, noun, verb, last - 1);
    }
  }

  /** A panic in a row ends every later row with the same error. */
  lemma {:induction false} FoundErrRows(memory: seq<u64>, desired: u64, fuel: nat, noun: nat, last: nat)
    requires |memory| >= 3 && noun < last <= 99
    requires Found(memory, desired, fuel, noun, 99).Err?
    ensures Found(memory, desired, fuel, last, 0) == Found(memory, desired, fuel, noun, 99)
    decreases last - noun
  {
    if noun + 1 < last {
      FoundErrRows(memory, desired, fuel, noun, last - 1);
      FoundErrPersists(memory, desired, fuel, last - 1, 0, 99);
    }
  }

  /** The nested `for noun in 0..99 { for verb in 0..99 { … } }` loops of `main`. */
  method Search(memory: seq<u64>, desired: u64, fuel: nat) returns (r: Result<seq<int>>)
    ensures |memory| < 3 ==> r == Err(OutOfRange)
    ensures |memory| >= 3 ==> r == Found(memory, desired, fuel, 99, 0)
  {
    if |memory| < 3 {
      return Err(OutOfRange);
    }
    var answers: seq<int> := [];
    var noun: u64 := 0;
    while noun < 99
      invariant noun <= 99
      invariant Found(memory, desired, fuel, noun as int, 0) == Ok(answers)
    {
      var row := SearchRow(memory, desired, fuel, noun, answers);
      if row.Err? {
        if noun < 98 {
          FoundErrRows(memory, desired, fuel, noun as int, 99);
        }
        return row;
      }
      answers := row.value;
      ghost var done := noun;
      noun := noun + 1;
      RowAdvances(memory, desired, fuel, done as int, noun as int);
    }
    return Ok(answers);
  }

  /** Finishing the row of `noun` is reaching the start of the next row. */
  lemma RowAdvances(memory: seq<u64>, desired: u64, fuel: nat, noun: nat, next: nat)
    requires |memory| >= 3 && noun < 99 && next == noun + 1
    ensures Found(memory, desired, fuel, next, 0) == Found(memory, desired, fuel, noun, 99)
  {
  }

  /** The inner `for verb in 0..99` loop for one noun, extending the answers printed so far. */
  method SearchRow(memory: seq<u64>, desired: u64, fuel: nat, noun: u64, sofar: seq<int>) returns (r: Result<seq<int>>)
    requires |memory| >= 3 && noun < 99 && Found(memory, desired, fuel, noun as int, 0) == Ok(sofar)
    ensures r == Found(memory, desired, fuel, noun as int, 99)
  {
    var answers := sofar;
    var verb: u64 := 0;
    while verb < 99
      invariant verb <= 99
      invariant Found(memory, desired, fuel, noun as int, verb as int) == Ok(answers)
    {
      var out := RunCopy(WithInputs(memory, noun, verb), fuel);
      if out.Err? {
        FoundNext(memory, desired, fuel, noun, verb, verb as int + 1, out);
        FoundErrPersists(memory, desired, fuel, noun as int, verb as int + 1, 99);
        return Err(out.fault);
      }
      if out.value == desired {
        answers := answers + [100 * noun as int + verb as int];
      }
      ghost var tried := verb;
      verb := verb + 1;
      FoundNext(memory, desired, fuel, noun, tried, verb as int, out);
    }
    return Ok(answers);
  }
}
