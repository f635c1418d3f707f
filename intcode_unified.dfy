/**
 * The IntCode machines that keep instructions and data in one memory
 * vector (2019/day7/src/main.rs and 2019/day5/src/main.rs).  Mode digits
 * are not validated: digit 0 reads memory, every other digit is immediate.
 * Writes go to `memory[param]` whatever the mode, and there is no relative
 * base.  The two differ at an opcode 3 that finds no input: day7's
 * amplifier returns to its caller, day5 (reading stdin) panics.
 */
module IntcodeUnified {
  import opened IntcodeDecode

  datatype InputPolicy = SuspendOnEmpty | PanicOnEmpty

  datatype Machine = Machine(pc: int, memory: seq<int>, input: seq<int>, output: seq<int>, halt: bool)

  /** Operand value: digit 0 reads memory[p]; any other digit uses p itself. */
  function Load(m: Machine, digit: int, p: int): (r: Result<int>)
    ensures digit != 0 ==> r == Ok(p)
    ensures digit == 0 ==> r == Cell(m.memory, p)
  {
    if digit == 0 then Cell(m.memory, p) else Ok(p)
  }

  /** `memory[a] = v`, which panics outside the vector. */
  function Store(mem: seq<int>, a: int, v: int): (r: Result<seq<int>>)
    ensures r.Ok? <==> 0 <= a < |mem|
    ensures r.Ok? ==> r.value == mem[a := v]
  {
    if 0 <= a < |mem| then Ok(mem[a := v]) else Err(OutOfRange)
  }

  function OpcodeAt(m: Machine): int
    requires 0 <= m.pc < |m.memory|
  {
    Rem(m.memory[m.pc], 100)
  }

  function Arithmetic(m: Machine, op: int): (r: Result<Event<Machine>>)
    requires op in {1, 2, 7, 8}
    ensures r.Ok? ==> r.value.Stepped?
  {
    var ins :- DecodeRaw(m.memory, m.pc, 3);
    var a :- Load(m, ins.digits[0], ins.params[0]);
    var b :- Load(m, ins.digits[1], ins.params[1]);
    var mem :- Store(m.memory, ins.params[2], Compute(op, a, b));
    Ok(Stepped(m.(memory := mem, pc := m.pc + 4)))
  }

  function ReadInput(policy: InputPolicy, m: Machine): (r: Result<Event<Machine>>)
    ensures r.Ok? ==> r.value.Stepped? || r.value.Blocked?
  {
    var ins :- DecodeRaw(m.memory, m.pc, 1);
    if |m.input| == 0 then
      if policy == SuspendOnEmpty then Ok(Blocked) else Err(NoInput)
    else
      var mem :- Store(m.memory, ins.params[0], m.input[0]);
      Ok(Stepped(m.(memory := mem, input := m.input[1..], pc := m.pc + 2)))
  }

  function WriteOutput(m: Machine): (r: Result<Event<Machine>>)
    ensures r.Ok? ==> r.value.Stepped?
  {
    var ins :- DecodeRaw(m.memory, m.pc, 1);
    var v :- Load(m, ins.digits[0], ins.params[0]);
    Ok(Stepped(m.(output := m.output + [v], pc := m.pc + 2)))
  }

  function Jump(m: Machine, op: int): (r: Result<Event<Machine>>)
    requires op in {5, 6}
    ensures r.Ok? ==> r.value.Stepped?
  {
    var ins :- DecodeRaw(m.memory, m.pc, 2);
    var a :- Load(m, ins.digits[0], ins.params[0]);
    var b :- Load(m, ins.digits[1], ins.params[1]);
    var taken := if op == 5 then a != 0 else a == 0;
    Ok(Stepped(m.(pc := if taken then b else m.pc + 3)))
  }

  /** What one pass of the loop may change: memory keeps its length, input shrinks from the front, output grows at the back. */
  ghost predicate OneStep(m: Machine, n: Machine)
  {
    && n.halt == m.halt
    && |n.memory| == |m.memory|
    && (n.input == m.input || (|m.input| > 0 && n.input == m.input[1..]))
    && (n.output == m.output || (|n.output| == |m.output| + 1 && n.output[..|m.output|] == m.output))
  }

  /** One pass of the `run` loop. */
  function Step(policy: InputPolicy, m: Machine): (r: Result<Event<Machine>>)
    ensures r.Ok? ==> 0 <= m.pc < |m.memory|
    ensures r.Ok? && r.value.Stepped? ==> OneStep(m, r.value.next)
    ensures r.Ok? && r.value.Stopped? ==> r.value.next == m.(halt := true)
    ensures r == Ok(Blocked) ==> policy == SuspendOnEmpty
  {
    var head :- DecodeRaw(m.memory, m.pc, 0);
    var op := head.opcode;
    if op in {1, 2, 7, 8} then Arithmetic(m, op)
    else if op == 3 then ReadInput(policy, m)
    else if op == 4 then WriteOutput(m)
    else if op in {5, 6} then Jump(m, op)
    else if op == 99 then Ok(Stopped(m.(halt := true)))
    else Err(BadOpcode(op))
  }

  /**
   * The frame of each opcode: only 1, 2, 7, 8 and 3 write memory, each in
   * one cell; only 3 consumes input; only 4 appends output; every
   * instruction but a jump advances pc past its parameters.
   */
  lemma StepFrame(policy: InputPolicy, m: Machine)
    requires Step(policy, m).Ok? && Step(policy, m).value.Stepped?
    ensures var n := Step(policy, m).value.next;
            var op := OpcodeAt(m);
            && op in {1, 2, 3, 4, 5, 6, 7, 8}
            && (op !in {1, 2, 3, 7, 8} ==> n.memory == m.memory)
            && (op in {1, 2, 7, 8} ==> exists v :: WritesOnly(m.memory, n.memory, v))
            && (op == 3 ==> |m.input| > 0 && n.input == m.input[1..] && WritesOnly(m.memory, n.memory, m.input[0]))
            && (op != 3 ==> n.input == m.input)
            && (op == 4 ==> |n.output| == |m.output| + 1 && n.output[..|m.output|] == m.output)
            && (op != 4 ==> n.output == m.output)
            && (op !in {5, 6} ==> n.pc == m.pc + 1 + Width(op))
  {
    var op := OpcodeAt(m);
    var n := Step(policy, m).value.next;
    if op in {1, 2, 7, 8} {
      var ins := DecodeRaw(m.memory, m.pc, 3).value;
      var a := Load(m, ins.digits[0], ins.params[0]).value;
      var b := Load(m, ins.digits[1], ins.params[1]).value;
      var t := ins.params[2];
      assert n.memory == m.memory[t := Compute(op, a, b)];
      assert n.memory[t] == Compute(op, a, b);
      assert WritesOnly(m.memory, n.memory, Compute(op, a, b));
    } else if op == 3 {
      var ins := DecodeRaw(m.memory, m.pc, 1).value;
      var t := ins.params[0];
      assert n.memory == m.memory[t := m.input[0]];
      assert n.memory[t] == m.input[0];
    }
  }

  /** Opcode 3 with no input: the amplifier returns with nothing changed, while day5's reader panics. */
  lemma StepOnEmptyInput(policy: InputPolicy, m: Machine)
    requires 0 <= m.pc && m.pc + 1 < |m.memory| && OpcodeAt(m) == 3 && m.input == []
    ensures Step(policy, m) == (if policy == SuspendOnEmpty then Ok(Blocked) else Err(NoInput))
  {
  }

  /** Opcode 99 stops the machine, and only opcode 99 does. */
  lemma StepStops(policy: InputPolicy, m: Machine)
    ensures (Step(policy, m).Ok? && Step(policy, m).value.Stopped?) <==> 0 <= m.pc < |m.memory| && OpcodeAt(m) == 99
  {
  }

  /** An opcode outside the table panics, naming the opcode. */
  lemma StepRejects(policy: InputPolicy, m: Machine)
    requires 0 <= m.pc < |m.memory| && OpcodeAt(m) !in {1, 2, 3, 4, 5, 6, 7, 8, 99}
    ensures Step(policy, m) == Err(BadOpcode(OpcodeAt(m)))
  {
  }

  function StepOf(policy: InputPolicy): Machine -> Result<Event<Machine>>
  {
    m => Step(policy, m)
  }

  /** `run`, bounded by `fuel` instructions. */
  function Run(policy: InputPolicy, m: Machine, fuel: nat): (r: Outcome<Machine>)
    ensures r.Suspended? ==> Step(policy, r.state) == Ok(Blocked)
  {
    Iterate(StepOf(policy), m, fuel)
  }

  /** What every run keeps: memory size, input as a suffix, output as an extension. */
  ghost predicate Evolves(m: Machine, n: Machine)
  {
    && |n.memory| == |m.memory|
    && |n.input| <= |m.input| && n.input == m.input[|m.input| - |n.input|..]
    && |m.output| <= |n.output| && n.output[..|m.output|] == m.output
  }

  /** Evolution without stopping: `halt` is untouched as well. */
  ghost predicate Keeps(m: Machine, n: Machine)
  {
    Evolves(m, n) && n.halt == m.halt
  }

  lemma KeepsChains(a: Machine, b: Machine, c: Machine)
    requires Keeps(a, b) && Keeps(b, c)
    ensures Keeps(a, c)
  {
    assert c.input == b.input[|b.input| - |c.input|..];
    assert c.output[..|a.output|] == c.output[..|b.output|][..|a.output|];
  }

  lemma StepKeeps(policy: InputPolicy)
    ensures forall a, b :: StepOf(policy)(a) == Ok(Stepped(b)) ==> Keeps(a, b)
  {
    forall a, b | StepOf(policy)(a) == Ok(Stepped(b))
      ensures Keeps(a, b)
    {
      assert Step(policy, a) == Ok(Stepped(b));
      assert OneStep(a, b);
    }
  }

  /** Any run keeps the memory size, consumes input from the front and only appends output; only a suspending amplifier suspends. */
  lemma RunEvolves(policy: InputPolicy, m: Machine, fuel: nat)
    ensures !Run(policy, m, fuel).Faulted? ==> Evolves(m, Run(policy, m, fuel).state)
    ensures Run(policy, m, fuel).Suspended? || Run(policy, m, fuel).OutOfFuel? ==> Run(policy, m, fuel).state.halt == m.halt
    ensures Run(policy, m, fuel).Halted? ==> Run(policy, m, fuel).state.halt
    ensures Run(policy, m, fuel).Suspended? ==> policy == SuspendOnEmpty
  {
    var step := StepOf(policy);
    StepKeeps(policy);
    forall a, b, c | Keeps(a, b) && Keeps(b, c)
      ensures Keeps(a, c)
    {
      KeepsChains(a, b, c);
    }
    IterateKeeps(step, (a, b) => Keeps(a, b), m, fuel);
    IterateEnds(step, m, fuel);
  }

  /** A run that ends within its fuel ends the same way with any more fuel. */
  lemma RunMoreFuel(policy: InputPolicy, m: Machine, fuel: nat, extra: nat)
    requires !Run(policy, m, fuel).OutOfFuel?
    ensures Run(policy, m, fuel + extra) == Run(policy, m, fuel)
  {
    IterateMoreFuel(StepOf(policy), m, fuel, extra);
  }

  /**
   * A suspended machine waits at an opcode 3 with no input and `halt`
   * unset; once input is supplied, the same instruction consumes it.
   */
  lemma SuspendThenResume(m: Machine, fuel: nat, vs: seq<int>)
    requires Run(SuspendOnEmpty, m, fuel).Suspended?
    requires |vs| > 0
    ensures var n := Run(SuspendOnEmpty, m, fuel).state;
            && n.input == [] && n.halt == m.halt
            && Step(SuspendOnEmpty, n) == Ok(Blocked)
            && var s := Step(SuspendOnEmpty, n.(input := vs));
               s.Err? || (s.value.Stepped? && s.value.next.pc == n.pc + 2 && s.value.next.input == vs[1..])
  {
    IterateEnds(StepOf(SuspendOnEmpty), m, fuel);
    RunEvolves(SuspendOnEmpty, m, fuel);
    var n := Run(SuspendOnEmpty, m, fuel).state;
    assert Step(SuspendOnEmpty, n) == Ok(Blocked);
    var n' := n.(input := vs);
    assert DecodeRaw(n'.memory, n'.pc, 1) == DecodeRaw(n.memory, n.pc, 1);
  }

  /** A halted machine sits on opcode 99 with `halt` set; running it again halts at once, unchanged. */
  lemma HaltedIsFinal(policy: InputPolicy, m: Machine, fuel: nat, again: nat)
    requires Run(policy, m, fuel).Halted?
    requires again > 0
    ensures var n := Run(policy, m, fuel).state;
            n.halt && Run(policy, n, again) == Halted(n)
  {
    IterateEnds(StepOf(policy), m, fuel);
    var k := Last(StepOf(policy), m, fuel);
    var n := Run(policy, m, fuel).state;
    assert Step(policy, k) == Ok(Stopped(n));
    assert n == k.(halt := true);
    StepStops(policy, k);
    StepStops(policy, n);
    assert Step(policy, n) == Ok(Stopped(n));
  }

  /**
   * Self-modifying code: `1,0,0,0` overwrites its own first word with
   * 1 + 1 = 2 before the machine reaches opcode 99 at position 4.
   */
  lemma SelfModification(policy: InputPolicy)
    ensures Run(policy, Machine(0, [1, 0, 0, 0, 99], [], [], false), 2) == Halted(Machine(4, [2, 0, 0, 0, 99], [], [], true))
  {
    var m0 := Machine(0, [1, 0, 0, 0, 99], [], [], false);
    var m1 := Machine(4, [2, 0, 0, 0, 99], [], [], false);
    SelfModificationAdds(policy);
    assert StepOf(policy)(m0) == Step(policy, m0);
    SelfModificationHalts(policy);
    assert StepOf(policy)(m1) == Step(policy, m1);
  }

  /** The add at position 0 reads words 0 and 0 and writes its sum over word 0. */
  lemma SelfModificationAdds(policy: InputPolicy)
    ensures Step(policy, Machine(0, [1, 0, 0, 0, 99], [], [], false)) == Ok(Stepped(Machine(4, [2, 0, 0, 0, 99], [], [], false)))
  {
    var m0 := Machine(0, [1, 0, 0, 0, 99], [], [], false);
    var m1 := Machine(4, [2, 0, 0, 0, 99], [], [], false);
    PlainWord(m0.memory, 0, 0);
    PlainWord(m0.memory, 0, 3);
    assert m0.memory[1..4] == [0, 0, 0];
    assert seq(3, i => 0) == [0, 0, 0];
    assert DecodeRaw(m0.memory, 0, 3) == Ok(RawInstruction(1, [0, 0, 0], [0, 0, 0]));
    assert m0.memory[0 := 2] == m1.memory;
    assert Arithmetic(m0, 1) == Ok(Stepped(m1));
  }

  /** Opcode 99 at position 4 stops the machine. */
  lemma SelfModificationHalts(policy: InputPolicy)
    ensures Step(policy, Machine(4, [2, 0, 0, 0, 99], [], [], false)) == Ok(Stopped(Machine(4, [2, 0, 0, 0, 99], [], [], true)))
  {
    PlainWord([2, 0, 0, 0, 99], 4, 0);
  }
}
