/**
 * The IntCode computer of 2019/day9/src/main.rs: the same object as the
 * shared library's, built from a program and a separate memory, writing
 * with the direct destination rule.
 */
module Day9Computer {
  import opened IntcodeDecode
  import opened IntcodeSplit

  class Computer {
    var pc: int
    var relative: int
    var program: seq<int>
    var memory: seq<int>
    var input: seq<int>
    var output: seq<int>
    var halt: bool

    function State(): Machine
      reads this
    {
      Machine(pc, relative, program, memory, input, output, halt)
    }

    /** `computer(program, memory)`: no input or output yet, pc and relative base at 0. */
    constructor (program: seq<int>, memory: seq<int>)
      ensures State() == Machine(0, 0, program, memory, [], [], false)
    {
      this.pc, this.relative, this.program, this.memory := 0, 0, program, memory;
      this.input, this.output, this.halt := [], [], false;
    }

    /** Appends one value to the input queue, as `main` does before each run. */
    method PushInput(v: int)
      modifies this
      ensures State() == old(State()).(input := old(input) + [v])
    {
      input := input + [v];
    }

    /**
     * `run`: executes instructions until opcode 99 (setting `halt`) or until
     * opcode 3 finds no input.  At most `fuel` instructions are executed.
     */
    method Run(fuel: nat) returns (outcome: Outcome<Machine>)
      modifies this
      ensures outcome == IntcodeSplit.Run(Direct, old(State()), fuel)
      ensures !outcome.Faulted? ==> State() == outcome.state
    {
      var steps: nat := 0;
      while steps < fuel
        invariant steps <= fuel
        invariant IntcodeSplit.Run(Direct, old(State()), fuel) == IntcodeSplit.Run(Direct, State(), fuel - steps)
        decreases fuel - steps
      {
        var e := Step(Direct, State());
        if e.Err? {
          return Faulted(e.fault);
        }
        match e.value {
          case Blocked =>
            return Suspended(State());
          case Stopped(n) =>
            halt := true;
            return Halted(State());
          case Stepped(n) =>
            pc, relative, memory, input, output := n.pc, n.relative, n.memory, n.input, n.output;
        }
        steps := steps + 1;
      }
      return OutOfFuel(State());
    }
  }

  /** Ten thousand zero words: the memory `main` gives each run. */
  function Scratch(): (r: seq<int>)
    ensures |r| == 10000 && forall i :: 0 <= i < |r| ==> r[i] == 0
  {
    seq(10000, i => 0)
  }

  /**
   * One part of `main`: a fresh computer over the program and the zeroed
   * memory, given the single input `mode` (1 for the test, 2 for the boost)
   * and run; the outputs are what the part reports.
   */
  method Part(program: seq<int>, mode: int, fuel: nat) returns (outcome: Outcome<Machine>)
    ensures outcome == IntcodeSplit.Run(Direct, Machine(0, 0, program, Scratch(), [mode], [], false), fuel)
  {
    var memory := Scratch();
    var c := new Computer(program, memory);
    c.PushInput(mode);
    ghost var start := c.State();
    assert start == Machine(0, 0, program, memory, [mode], [], false);
    outcome := c.Run(fuel);
  }
}
