/**
 * `run` of 2019/day5/src/main.rs: the shared-memory IntCode machine over a
 * local memory vector, reading its inputs from standard input (modelled as
 * the sequence of integers the lines hold) and printing its outputs
 * (modelled as the output log).
 */
module Day5Intcode {
  import opened IntcodeDecode
  import opened IntcodeUnified

  /**
   * The `loop` of `run`: it breaks at opcode 99 and panics on a bad opcode,
   * a bad address or a missing input line.  At most `fuel` instructions are
   * executed.
   */
  method Run(memory: seq<int>, input: seq<int>, fuel: nat) returns (outcome: Outcome<Machine>)
    ensures outcome == IntcodeUnified.Run(PanicOnEmpty, Machine(0, memory, input, [], false), fuel)
    ensures !outcome.Suspended?
  {
    ghost var start := Machine(0, memory, input, [], false);
    RunEvolves(PanicOnEmpty, start, fuel);
    var m := Machine(0, memory, input, [], false);
    var steps: nat := 0;
    while steps < fuel
      invariant steps <= fuel
      invariant IntcodeUnified.Run(PanicOnEmpty, start, fuel) == IntcodeUnified.Run(PanicOnEmpty, m, fuel - steps)
      decreases fuel - steps
    {
      var e := Step(PanicOnEmpty, m);
      if e.Err? {
        return Faulted(e.fault);
      }
      match e.value {
        case Blocked =>
          return Suspended(m);
        case Stopped(n) =>
          return Halted(n);
        case Stepped(n) =>
          m := n;
      }
      steps := steps + 1;
    }
    return OutOfFuel(m);
  }
}
