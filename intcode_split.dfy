/**
 * The IntCode machines that fetch instructions from `program` and keep data
 * in a separate `memory` (archive/2019/intcode/src/lib.rs and
 * 2019/day9/src/main.rs).  Both validate three parameter modes and keep a
 * relative base; they differ only in how a write destination is formed.
 */
module IntcodeSplit {
  import opened IntcodeDecode

  /**
   * `Indirect`: the write address is the memory word that the parameter
   * points to (lib.rs).  `Direct`: the parameter itself, plus the relative
   * base in relative mode, is the address (day9).
   */
  datatype DestinationRule = Indirect | Direct

  datatype Machine = Machine(pc: int, relative: int, program: seq<int>, memory: seq<int>,
                             input: seq<int>, output: seq<int>, halt: bool)

  /** Operand value: position reads memory[p], immediate is p, relative reads memory[relative + p]. */
  function Load(m: Machine, mode: Mode, p: int): (r: Result<int>)
    ensures r.Err? ==> r.fault == OutOfRange
  {
    match mode
    case Position => Cell(m.memory, p)
    case Immediate => Ok(p)
    case Relative => Cell(m.memory, m.relative + p)
  }

  /** The address an instruction writes to; immediate mode is refused. */
  function Target(rule: DestinationRule, m: Machine, mode: Mode, p: int): (r: Result<int>)
    ensures r.Ok? ==> 0 <= r.value < |m.memory|
    ensures mode == Immediate <==> r == Err(BadDestination)
  {
    match mode
    case Immediate => Err(BadDestination)
    case Position => Address(rule, m.memory, p)
    case Relative => Address(rule, m.memory, m.relative + p)
  }

  function Address(rule: DestinationRule, mem: seq<int>, a: int): (r: Result<int>)
    ensures r.Ok? ==> 0 <= r.value < |mem|
    ensures r.Err? ==> r.fault == OutOfRange
  {
    match rule
    case Direct => if 0 <= a < |mem| then Ok(a) else Err(OutOfRange)
    case Indirect =>
      var v :- Cell(mem, a);
      if 0 <= v < |mem| then Ok(v) else Err(OutOfRange)
  }

  /** The instruction at pc, when pc is inside the program. */
  function OpcodeAt(m: Machine): int
    requires 0 <= m.pc < |m.program|
  {
    Rem(m.program[m.pc], 100)
  }

  function Arithmetic(rule: DestinationRule, m: Machine, op: int): (r: Result<Event<Machine>>)
    requires op in {1, 2, 7, 8}
    ensures r.Ok? ==> r.value.Stepped?
  {
    var ins :- Decode(m.program, m.pc, 3);
    var a :- Load(m, ins.modes[0], ins.params[0]);
    var b :- Load(m, ins.modes[1], ins.params[1]);
    var t :- Target(rule, m, ins.modes[2], ins.params[2]);
    Ok(Stepped(m.(memory := m.memory[t := Compute(op, a, b)], pc := m.pc + 4)))
  }

  function ReadInput(rule: DestinationRule, m: Machine): (r: Result<Event<Machine>>)
    ensures r.Ok? ==> r.value.Stepped? || r.value.Blocked?
  {
    var ins :- Decode(m.program, m.pc, 1);
    if |m.input| == 0 then Ok(Blocked)
    else
      var t :- Target(rule, m, ins.modes[0], ins.params[0]);
      Ok(Stepped(m.(memory := m.memory[t := m.input[0]], input := m.input[1..], pc := m.pc + 2)))
  }

  function WriteOutput(m: Machine): (r: Result<Event<Machine>>)
    ensures r.Ok? ==> r.value.Stepped?
  {
    var ins :- Decode(m.program, m.pc, 1);
    var v :- Load(m, ins.modes[0], ins.params[0]);
    Ok(Stepped(m.(output := m.output + [v], pc := m.pc + 2)))
  }

  function Jump(m: Machine, op: int): (r: Result<Event<Machine>>)
    requires op in {5, 6}
    ensures r.Ok? ==> r.value.Stepped?
  {
    var ins :- Decode(m.program, m.pc, 2);
    var a :- Load(m, ins.modes[0], ins.params[0]);
    var b :- Load(m, ins.modes[1], ins.params[1]);
    var taken := if op == 5 then a != 0 else a == 0;
    Ok(Stepped(m.(pc := if taken then b else m.pc + 3)))
  }

  function AdjustBase(m: Machine): (r: Result<Event<Machine>>)
    ensures r.Ok? ==> r.value.Stepped?
  {
    var ins :- Decode(m.program, m.pc, 1);
    var v :- Load(m, ins.modes[0], ins.params[0]);
    Ok(Stepped(m.(relative := m.relative + v, pc := m.pc + 2)))
  }

  /** Opcode 99 does not move pc; every other instruction that does not jump advances past its parameters. */
  ghost predicate OneStep(m: Machine, n: Machine)
  {
    && n.program == m.program && n.halt == m.halt
    && |n.memory| == |m.memory|
    && (n.input == m.input || (|m.input| > 0 && n.input == m.input[1..]))
    && (n.output == m.output || (|n.output| == |m.output| + 1 && n.output[..|m.output|] == m.output))
  }

  /**
   * One pass of the `run` loop: fetch the opcode, decode its parameters
   * and execute it.  The program is never written; see `StepFrame` for
   * what each opcode may change.
   */
  function Step(rule: DestinationRule, m: Machine): (r: Result<Event<Machine>>)
    ensures r.Ok? ==> 0 <= m.pc < |m.program|
    ensures r.Ok? && r.value.Stepped? ==> OneStep(m, r.value.next)
    ensures r.Ok? && r.value.Stopped? ==> r.value.next == m.(halt := true)
  {
    var head :- Decode(m.program, m.pc, 0);
    var op := head.opcode;
    if op in {1, 2, 7, 8} then Arithmetic(rule, m, op)
    else if op == 3 then ReadInput(rule, m)
    else if op == 4 then WriteOutput(m)
    else if op in {5, 6} then Jump(m, op)
    else if op == 9 then AdjustBase(m)
    else if op == 99 then Ok(Stopped(m.(halt := true)))
    else Err(BadOpcode(op))
  }

  /**
   * The instruction table's frame: memory keeps its length and changes in
   * at most one cell, only opcode 3 consumes input (from the front), only
   * opcode 4 appends output, only opcode 9 moves the relative base, and
   * every instruction but a jump advances pc past its parameters.
   */
  lemma StepFrame(rule: DestinationRule, m: Machine)
    requires Step(rule, m).Ok? && Step(rule, m).value.Stepped?
    ensures var n := Step(rule, m).value.next;
            var op := OpcodeAt(m);
            && op in {1, 2, 3, 4, 5, 6, 7, 8, 9}
            && (op !in {1, 2, 3, 7, 8} ==> n.memory == m.memory)
            && (op in {1, 2, 7, 8} ==> exists v :: WritesOnly(m.memory, n.memory, v))
            && (op == 3 ==> |m.input| > 0 && n.input == m.input[1..] && WritesOnly(m.memory, n.memory, m.input[0]))
            && (op != 3 ==> n.input == m.input)
            && (op == 4 ==> |n.output| == |m.output| + 1 && n.output[..|m.output|] == m.output)
            && (op != 4 ==> n.output == m.output)
            && (op != 9 ==> n.relative == m.relative)
            && (op !in {5, 6} ==> n.pc == m.pc + 1 + Width(op))
  {
    var op := OpcodeAt(m);
    if op in {1, 2, 7, 8} {
      ArithmeticFrame(rule, m);
    } else if op == 3 {
      ReadInputFrame(rule, m);
    } else {
      OtherFrame(rule, m);
    }
  }

  /** The machine a continuing step moves to. */
  function After(rule: DestinationRule, m: Machine): Machine
    requires Step(rule, m).Ok? && Step(rule, m).value.Stepped?
  {
    Step(rule, m).value.next
  }

  /** Opcodes 1, 2, 7 and 8 write one cell and advance pc by 4. */
  lemma ArithmeticFrame(rule: DestinationRule, m: Machine)
    requires Step(rule, m).Ok? && Step(rule, m).value.Stepped? && OpcodeAt(m) in {1, 2, 7, 8}
    ensures exists v :: WritesOnly(m.memory, After(rule, m).memory, v)
    ensures After(rule, m).input == m.input && After(rule, m).output == m.output
    ensures After(rule, m).relative == m.relative && After(rule, m).pc == m.pc + 4
  {
    var op := OpcodeAt(m);
    var n := After(rule, m);
    var ins := Decode(m.program, m.pc, 3).value;
    var a := Load(m, ins.modes[0], ins.params[0]).value;
    var b := Load(m, ins.modes[1], ins.params[1]).value;
    var t := Target(rule, m, ins.modes[2], ins.params[2]).value;
    assert n.memory == m.memory[t := Compute(op, a, b)];
    assert n.memory[t] == Compute(op, a, b);
    assert WritesOnly(m.memory, n.memory, Compute(op, a, b));
  }

  /** Opcode 3 consumes the first input into one cell and advances pc by 2. */
  lemma ReadInputFrame(rule: DestinationRule, m: Machine)
    requires Step(rule, m).Ok? && Step(rule, m).value.Stepped? && OpcodeAt(m) == 3
    ensures |m.input| > 0 && After(rule, m).input == m.input[1..] && WritesOnly(m.memory, After(rule, m).memory, m.input[0])
    ensures After(rule, m).output == m.output
    ensures After(rule, m).relative == m.relative && After(rule, m).pc == m.pc + 2
  {
    var n := After(rule, m);
    var ins := Decode(m.program, m.pc, 1).value;
    var t := Target(rule, m, ins.modes[0], ins.params[0]).value;
    assert n.memory == m.memory[t := m.input[0]];
    assert n.memory[t] == m.input[0];
  }

  /** Opcodes 4, 5, 6 and 9 leave memory and input alone; only 4 outputs, only 9 moves the base. */
  lemma OtherFrame(rule: DestinationRule, m: Machine)
    requires Step(rule, m).Ok? && Step(rule, m).value.Stepped? && OpcodeAt(m) !in {1, 2, 3, 7, 8}
    ensures OpcodeAt(m) in {4, 5, 6, 9}
    ensures After(rule, m).memory == m.memory && After(rule, m).input == m.input
    ensures OpcodeAt(m) == 4 ==> |After(rule, m).output| == |m.output| + 1 && After(rule, m).output[..|m.output|] == m.output
    ensures OpcodeAt(m) != 4 ==> After(rule, m).output == m.output
    ensures OpcodeAt(m) != 9 ==> After(rule, m).relative == m.relative
    ensures OpcodeAt(m) in {4, 9} ==> After(rule, m).pc == m.pc + 2
  {
  }

  /** `run` returns without change exactly at an opcode 3 that finds no input. */
  lemma StepBlocks(rule: DestinationRule, m: Machine)
    ensures Step(rule, m) == Ok(Blocked) <==>
              0 <= m.pc < |m.program| && OpcodeAt(m) == 3 && Decode(m.program, m.pc, 1).Ok? && m.input == []
  {
  }

  /** Opcode 99 stops the machine, whatever its mode digits, and only opcode 99 does. */
  lemma StepStops(rule: DestinationRule, m: Machine)
    ensures (Step(rule, m).Ok? && Step(rule, m).value.Stopped?) <==> 0 <= m.pc < |m.program| && OpcodeAt(m) == 99
  {
  }

  /** An opcode outside the table panics, naming the opcode. */
  lemma StepRejects(rule: DestinationRule, m: Machine)
    requires 0 <= m.pc < |m.program| && OpcodeAt(m) !in {1, 2, 3, 4, 5, 6, 7, 8, 9, 99}
    ensures Step(rule, m) == Err(BadOpcode(OpcodeAt(m)))
  {
  }

  function StepOf(rule: DestinationRule): Machine -> Result<Event<Machine>>
  {
    m => Step(rule, m)
  }

  /** `run`, bounded by `fuel` instructions. */
  function Run(rule: DestinationRule, m: Machine, fuel: nat): (r: Outcome<Machine>)
    ensures r.Suspended? ==> Step(rule, r.state) == Ok(Blocked)
  {
    Iterate(StepOf(rule), m, fuel)
  }

  /** What every run keeps: program, memory size, input as a suffix, output as an extension. */
  ghost predicate Evolves(m: Machine, n: Machine)
  {
    && n.program == m.program
    && |n.memory| == |m.memory|
    && |n.input| <= |m.input| && n.input == m.input[|m.input| - |n.input|..]
    && |m.output| <= |n.output| && n.output[..|m.output|] == m.output
  }

  /** Evolution without stopping: `halt` is untouched as well. */
  ghost predicate Keeps(m: Machine, n: Machine)
  {
    Evolves(m, n) && n.halt == m.halt
  }

  lemma KeepsChains(a: Machine, b: Machine, c: Machine)
    requires Keeps(a, b) && Keeps(b, c)
    ensures Keeps(a, c)
  {
    assert c.input == b.input[|b.input| - |c.input|..];
    assert c.output[..|a.output|] == c.output[..|b.output|][..|a.output|];
  }

  lemma StepKeeps(rule: DestinationRule)
    ensures forall a, b :: StepOf(rule)(a) == Ok(Stepped(b)) ==> Keeps(a, b)
  {
    forall a, b | StepOf(rule)(a) == Ok(Stepped(b))
      ensures Keeps(a, b)
    {
      assert Step(rule, a) == Ok(Stepped(b));
      assert OneStep(a, b);
    }
  }

  /** Any run keeps the program and the memory size, consumes input from the front and only appends output. */
  lemma RunEvolves(rule: DestinationRule, m: Machine, fuel: nat)
    ensures !Run(rule, m, fuel).Faulted? ==> Evolves(m, Run(rule, m, fuel).state)
    ensures Run(rule, m, fuel).Suspended? || Run(rule, m, fuel).OutOfFuel? ==> Run(rule, m, fuel).state.halt == m.halt
    ensures Run(rule, m, fuel).Halted? ==> Run(rule, m, fuel).state.halt
  {
    var step := StepOf(rule);
    StepKeeps(rule);
    forall a, b, c | Keeps(a, b) && Keeps(b, c)
      ensures Keeps(a, c)
    {
      KeepsChains(a, b, c);
    }
    IterateKeeps(step, (a, b) => Keeps(a, b), m, fuel);
    IterateEnds(step, m, fuel);
  }

  /** A run that ends within its fuel ends the same way with any more fuel. */
  lemma RunMoreFuel(rule: DestinationRule, m: Machine, fuel: nat, extra: nat)
    requires !Run(rule, m, fuel).OutOfFuel?
    ensures Run(rule, m, fuel + extra) == Run(rule, m, fuel)
  {
    IterateMoreFuel(StepOf(rule), m, fuel, extra);
  }

  /**
   * A suspended machine waits at an opcode 3 with an empty input queue.
   * Supplying input and running again retries that same instruction, which
   * now consumes the first value and moves past it (or panics on a bad
   * destination); it never blocks again.
   */
  lemma SuspendThenResume(rule: DestinationRule, m: Machine, fuel: nat, vs: seq<int>)
    requires Run(rule, m, fuel).Suspended?
    requires |vs| > 0
    ensures var n := Run(rule, m, fuel).state;
            && n.input == [] && n.halt == m.halt
            && Step(rule, n) == Ok(Blocked)
            && var s := Step(rule, n.(input := vs));
               s.Err? || (s.value.Stepped? && s.value.next.pc == n.pc + 2 && s.value.next.input == vs[1..])
  {
    IterateEnds(StepOf(rule), m, fuel);
    RunEvolves(rule, m, fuel);
    var n := Run(rule, m, fuel).state;
    assert Step(rule, n) == Ok(Blocked);
    StepBlocks(rule, n);
    var n' := n.(input := vs);
    assert Decode(n'.program, n'.pc, 1) == Decode(n.program, n.pc, 1);
  }

  /** A halted machine sits on opcode 99 with `halt` set; running it again halts at once, unchanged. */
  lemma HaltedIsFinal(rule: DestinationRule, m: Machine, fuel: nat, again: nat)
    requires Run(rule, m, fuel).Halted?
    requires again > 0
    ensures var n := Run(rule, m, fuel).state;
            n.halt && Run(rule, n, again) == Halted(n)
  {
    IterateEnds(StepOf(rule), m, fuel);
    var k := Last(StepOf(rule), m, fuel);
    var n := Run(rule, m, fuel).state;
    assert Step(rule, k) == Ok(Stopped(n));
    assert n == k.(halt := true);
    StepStops(rule, k);
    StepStops(rule, n);
    assert Step(rule, n) == Ok(Stopped(n));
  }

  /**
   * The two destination rules part ways on the same program: with the
   * program copied into memory, `1102,34915192,34915192,7` stores the product
   * in cell 7 under the direct rule, but in the cell that cell 7 names
   * (cell 0) under the indirect rule, so `4,7` then outputs 0.
   */
  lemma DestinationRulesDiffer()
    ensures var p := [1102, 34915192, 34915192, 7, 4, 7, 99, 0];
            && Run(Direct, Machine(0, 0, p, p, [], [], false), 3).Halted?
            && Run(Direct, Machine(0, 0, p, p, [], [], false), 3).state.output == [1219070632396864]
            && Run(Indirect, Machine(0, 0, p, p, [], [], false), 3).Halted?
            && Run(Indirect, Machine(0, 0, p, p, [], [], false), 3).state.output == [0]
  {
    var p := [1102, 34915192, 34915192, 7, 4, 7, 99, 0];
    MultiplyThenOutput(Direct, p[7 := 1219070632396864], 1219070632396864);
    MultiplyThenOutput(Indirect, p[0 := 1219070632396864], 0);
  }

  /** The three words of `1102,34915192,34915192,7` decode as two immediates and a position. */
  lemma MultiplyDecodes(p: seq<int>)
    requires p == [1102, 34915192, 34915192, 7, 4, 7, 99, 0]
    ensures Decode(p, 0, 0) == Ok(Instruction(2, [], []))
    ensures Decode(p, 0, 3) == Ok(Instruction(2, [34915192, 34915192, 7], [Immediate, Immediate, Position]))
  {
    DigitsOfWord(1102, 0);
    DigitsOfWord(1102, 1);
    DigitsOfWord(1102, 2);
    assert Pow10(2) == 100 && Pow10(3) == 1000 && Pow10(4) == 10000;
    var x := ModeWord(1102);
    assert DigitAt(x, 0) == 1 && DigitAt(x, 1) == 1 && DigitAt(x, 2) == 0;
    assert FirstInvalid(x, 0, 3) == 3;
    assert Rem(1102, 100) == 2;
    assert p[1..4] == [34915192, 34915192, 7];
    assert seq(3, i requires 0 <= i < 3 => ModeFor(DigitAt(x, i))) == [Immediate, Immediate, Position];
    assert Decode(p, 0, 0).Ok?;
  }

  /**
   * One run of `1102,34915192,34915192,7,4,7,99,0` under a rule: the product
   * lands where the rule puts it (giving memory `mem`), and `4,7` outputs
   * what cell 7 then holds.
   */
  lemma MultiplyThenOutput(rule: DestinationRule, mem: seq<int>, out: int)
    requires rule == Direct ==> mem == [1102, 34915192, 34915192, 7, 4, 7, 99, 0][7 := 1219070632396864]
    requires rule == Indirect ==> mem == [1102, 34915192, 34915192, 7, 4, 7, 99, 0][0 := 1219070632396864]
    requires out == mem[7]
    ensures var p := [1102, 34915192, 34915192, 7, 4, 7, 99, 0];
            Run(rule, Machine(0, 0, p, p, [], [], false), 3) == Halted(Machine(6, 0, p, mem, [], [out], true))
  {
    var p := [1102, 34915192, 34915192, 7, 4, 7, 99, 0];
    var m0 := Machine(0, 0, p, p, [], [], false);
    var m1 := Machine(4, 0, p, mem, [], [], false);
    var m2 := Machine(6, 0, p, mem, [], [out], false);
    assert Run(rule, m0, 3) == Run(rule, m1, 2) by {
      MultiplyStep(rule, mem);
      RunStep(rule, m0, m1, 3);
    }
    assert Run(rule, m1, 2) == Run(rule, m2, 1) by {
      OutputStep(rule, mem, out);
      RunStep(rule, m1, m2, 2);
    }
    assert Run(rule, m2, 1) == Halted(m2.(halt := true)) by {
      assert Rem(99, 100) == 99;
      StepStops(rule, m2);
      RunStop(rule, m2, m2.(halt := true), 1);
    }
  }

  /** A step that continues hands the run on to the next machine. */
  lemma RunStep(rule: DestinationRule, m: Machine, n: Machine, fuel: nat)
    requires fuel > 0 && Step(rule, m) == Ok(Stepped(n))
    ensures Run(rule, m, fuel) == Run(rule, n, fuel - 1)
  {
    assert StepOf(rule)(m) == Step(rule, m);
  }

  /** A step on opcode 99 ends the run halted. */
  lemma RunStop(rule: DestinationRule, m: Machine, n: Machine, fuel: nat)
    requires fuel > 0 && Step(rule, m) == Ok(Stopped(n))
    ensures Run(rule, m, fuel) == Halted(n)
  {
    assert StepOf(rule)(m) == Step(rule, m);
  }

  /** `1102,34915192,34915192,7` stores the product where the rule says. */
  lemma MultiplyStep(rule: DestinationRule, mem: seq<int>)
    requires rule == Direct ==> mem == [1102, 34915192, 34915192, 7, 4, 7, 99, 0][7 := 1219070632396864]
    requires rule == Indirect ==> mem == [1102, 34915192, 34915192, 7, 4, 7, 99, 0][0 := 1219070632396864]
    ensures var p := [1102, 34915192, 34915192, 7, 4, 7, 99, 0];
            Step(rule, Machine(0, 0, p, p, [], [], false)) == Ok(Stepped(Machine(4, 0, p, mem, [], [], false)))
  {
    var p := [1102, 34915192, 34915192, 7, 4, 7, 99, 0];
    var m0 := Machine(0, 0, p, p, [], [], false);
    assert Decode(p, 0, 0) == Ok(Instruction(2, [], [])) by {
      MultiplyDecodes(p);
    }
    assert Arithmetic(rule, m0, 2) == Ok(Stepped(Machine(4, 0, p, mem, [], [], false))) by {
      MultiplyDecodes(p);
      assert Target(rule, m0, Position, 7) == Ok(if rule == Direct then 7 else 0);
      assert Compute(2, 34915192, 34915192) == 1219070632396864;
    }
  }

  /** `4,7` outputs cell 7. */
  lemma OutputStep(rule: DestinationRule, mem: seq<int>, out: int)
    requires |mem| == 8 && out == mem[7]
    ensures var p := [1102, 34915192, 34915192, 7, 4, 7, 99, 0];
            Step(rule, Machine(4, 0, p, mem, [], [], false)) == Ok(Stepped(Machine(6, 0, p, mem, [], [out], false)))
  {
    var p := [1102, 34915192, 34915192, 7, 4, 7, 99, 0];
    var m1 := Machine(4, 0, p, mem, [], [], false);
    PlainWord(p, 4, 0);
    PlainWord(p, 4, 1);
    assert p[5..6] == [7];
    assert seq(1, i => Position) == [Position];
    assert Decode(p, 4, 1) == Ok(Instruction(4, [7], [Position]));
    assert Load(m1, Position, 7) == Ok(out);
    assert [] + [out] == [out];
    assert WriteOutput(m1) == Ok(Stepped(Machine(6, 0, p, mem, [], [out], false)));
  }

  /** `3,0,4,0,99` suspends without input and echoes its input once given one. */
  lemma EchoSuspendsThenEchoes(rule: DestinationRule)
    ensures var p := [3, 0, 4, 0, 99];
            && Run(rule, Machine(0, 0, p, [0], [], [], false), 1) == Suspended(Machine(0, 0, p, [0], [], [], false))
            && Run(rule, Machine(0, 0, p, [0], [7], [], false), 3) == Halted(Machine(4, 0, p, [7], [], [7], true))
  {
    var p := [3, 0, 4, 0, 99];
    var m0 := Machine(0, 0, p, [0], [7], [], false);
    var m1 := Machine(2, 0, p, [7], [], [], false);
    var m2 := Machine(4, 0, p, [7], [], [7], false);
    EchoSuspends(rule);
    EchoReads(rule);
    RunStep(rule, m0, m1, 3);
    EchoWrites(rule);
    RunStep(rule, m1, m2, 2);
    assert Run(rule, m2, 1) == Halted(m2.(halt := true)) by {
      assert Rem(99, 100) == 99;
      StepStops(rule, m2);
      RunStop(rule, m2, m2.(halt := true), 1);
    }
  }

  /** Without input, `3,0` blocks. */
  lemma EchoSuspends(rule: DestinationRule)
    ensures var p := [3, 0, 4, 0, 99];
            Run(rule, Machine(0, 0, p, [0], [], [], false), 1) == Suspended(Machine(0, 0, p, [0], [], [], false))
  {
    var p := [3, 0, 4, 0, 99];
    var m := Machine(0, 0, p, [0], [], [], false);
    assert Decode(p, 0, 1).Ok? by {
      PlainWord(p, 0, 1);
    }
    StepBlocks(rule, m);
    assert StepOf(rule)(m) == Ok(Blocked);
  }

  /** With input 7, `3,0` stores it in cell 0. */
  lemma EchoReads(rule: DestinationRule)
    ensures var p := [3, 0, 4, 0, 99];
            Step(rule, Machine(0, 0, p, [0], [7], [], false)) == Ok(Stepped(Machine(2, 0, p, [7], [], [], false)))
  {
    var p := [3, 0, 4, 0, 99];
    var m0 := Machine(0, 0, p, [0], [7], [], false);
    assert Decode(p, 0, 0) == Ok(Instruction(3, [], [])) by {
      PlainWord(p, 0, 0);
    }
    assert Decode(p, 0, 1) == Ok(Instruction(3, [0], [Position])) by {
      PlainWord(p, 0, 1);
      assert seq(1, i => Position) == [Position];
      assert p[1..2] == [0];
    }
    assert [0][0 := 7] == [7] && [7][1..] == [];
    assert Target(rule, m0, Position, 0) == Ok(0);
    assert ReadInput(rule, m0) == Ok(Stepped(Machine(2, 0, p, [7], [], [], false)));
  }

  /** `4,0` then outputs cell 0. */
  lemma EchoWrites(rule: DestinationRule)
    ensures var p := [3, 0, 4, 0, 99];
            Step(rule, Machine(2, 0, p, [7], [], [], false)) == Ok(Stepped(Machine(4, 0, p, [7], [], [7], false)))
  {
    var p := [3, 0, 4, 0, 99];
    var m1 := Machine(2, 0, p, [7], [], [], false);
    PlainWord(p, 2, 0);
    PlainWord(p, 2, 1);
    assert seq(1, i => Position) == [Position];
    assert p[3..4] == [0];
    assert Decode(p, 2, 1) == Ok(Instruction(4, [0], [Position]));
    assert Load(m1, Position, 0) == Ok(7);
    assert [] + [7] == [7];
    assert WriteOutput(m1) == Ok(Stepped(Machine(4, 0, p, [7], [], [7], false)));
  }
}
