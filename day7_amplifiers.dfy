/**
 * The amplifier circuit of 2019/day7/src/main.rs: an `Amplifier` object
 * running the shared-memory IntCode machine, the phase tuples built by the
 * nested loops of `main`, the part 1 chain of five amplifiers and the part 2
 * feedback loop.
 */
module Day7Amplifiers {
  import opened IntcodeDecode
  import opened IntcodeUnified

  class Amplifier {
    var pc: int
    var memory: seq<int>
    var input: seq<int>
    var output: seq<int>
    var halt: bool

    function State(): Machine
      reads this
    {
      Machine(pc, memory, input, output, halt)
    }

    /** `amplifier(memory)`: pc 0, empty queues, not halted. */
    constructor (memory: seq<int>)
      ensures State() == Machine(0, memory, [], [], false)
    {
      this.pc, this.memory, this.input, this.output, this.halt := 0, memory, [], [], false;
    }

    /**
     * `run`: executes instructions until opcode 99 (setting `halt`) or until
     * opcode 3 finds no input.  At most `fuel` instructions are executed.
     */
    method Run(fuel: nat) returns (outcome: Outcome<Machine>)
      modifies this
      ensures outcome == IntcodeUnified.Run(SuspendOnEmpty, old(State()), fuel)
      ensures !outcome.Faulted? ==> State() == outcome.state
    {
      var steps: nat := 0;
      while steps < fuel
        invariant steps <= fuel
        invariant IntcodeUnified.Run(SuspendOnEmpty, old(State()), fuel) == IntcodeUnified.Run(SuspendOnEmpty, State(), fuel - steps)
        decreases fuel - steps
      {
        var e := Step(SuspendOnEmpty, State());
        if e.Err? {
          return Faulted(e.fault);
        }
        match e.value {
          case Blocked =>
            return Suspended(State());
          case Stopped(n) =>
            halt := true;
            return Halted(State());
          case Stepped(n) =>
            pc, memory, input, output := n.pc, n.memory, n.input, n.output;
        }
        steps := steps + 1;
      }
      return OutOfFuel(State());
    }
  }

  // Phase tuples.

  predicate Distinct(t: seq<int>)
  {
    forall i, j :: 0 <= i < j < |t| ==> t[i] != t[j]
  }

  /**
   * The tuples the nested loops push below `prefix`: `depth` more values,
   * each from lo..hi-1, in the loops' (lexicographic) order, keeping only
   * tuples without repeated values.
   */
  function Tuples(lo: int, hi: int, prefix: seq<int>, depth: nat): seq<seq<int>>
    decreases depth, 1, 0
  {
    if depth == 0 then (if Distinct(prefix) then [prefix] else [])
    else TuplesBelow(lo, hi, prefix, depth, hi)
  }

  /** The part of `Tuples(lo, hi, prefix, depth)` whose next value is below `x`. */
  function TuplesBelow(lo: int, hi: int, prefix: seq<int>, depth: nat, x: int): seq<seq<int>>
    requires depth > 0
    decreases depth, 0, if x <= lo then 0 else x - lo
  {
    if x <= lo then [] else TuplesBelow(lo, hi, prefix, depth, x - 1) + Tuples(lo, hi, prefix + [x - 1], depth - 1)
  }

  /** `t` extends `prefix` by `depth` values from lo..hi-1 and repeats no value. */
  ghost predicate Extends(lo: int, hi: int, prefix: seq<int>, depth: nat, t: seq<int>)
  {
    && |t| == |prefix| + depth
    && t[..|prefix|] == prefix
    && (forall i :: |prefix| <= i < |t| ==> lo <= t[i] < hi)
    && Distinct(t)
  }

  lemma {:induction false} TuplesMembers(lo: int, hi: int, prefix: seq<int>, depth: nat, t: seq<int>)
    ensures t in Tuples(lo, hi, prefix, depth) <==> Extends(lo, hi, prefix, depth, t)
    decreases depth, 1, 0
  {
    if depth == 0 {
      if Extends(lo, hi, prefix, depth, t) {
        assert t == t[..|prefix|];
      }
    } else {
      TuplesBelowMembers(lo, hi, prefix, depth, hi, t);
    }
  }

  lemma {:induction false} TuplesBelowMembers(lo: int, hi: int, prefix: seq<int>, depth: nat, x: int, t: seq<int>)
    requires depth > 0 && x <= hi
    ensures t in TuplesBelow(lo, hi, prefix, depth, x) <==> Extends(lo, hi, prefix, depth, t) && t[|prefix|] < x
    decreases depth, 0, if x <= lo then 0 else x - lo
  {
    if x > lo {
      TuplesBelowMembers(lo, hi, prefix, depth, x - 1, t);
      TuplesMembers(lo, hi, prefix + [x - 1], depth - 1, t);
      var k := |prefix|;
      if |t| == k + depth {
        assert t[..k + 1] == prefix + [x - 1] <==> t[..k] == prefix && t[k] == x - 1 by {
          if t[..k] == prefix && t[k] == x - 1 {
            assert t[..k + 1] == t[..k] + [t[k]];
          }
          if t[..k + 1] == prefix + [x - 1] {
            assert t[..k] == t[..k + 1][..k];
            assert t[k] == t[..k + 1][k];
          }
        }
      }
    }
  }

  /** The part 1 and part 2 phase lists hold exactly the 5-tuples of distinct values from lo..hi-1. */
  lemma PhaseTuplesMembers(lo: int, hi: int, t: seq<int>)
    ensures t in Tuples(lo, hi, [], 5) <==>
              |t| == 5 && (forall i :: 0 <= i < 5 ==> lo <= t[i] < hi) && Distinct(t)
  {
    TuplesMembers(lo, hi, [], 5, t);
  }

  lemma DistinctFive(a: int, b: int, c: int, d: int, e: int)
    ensures Distinct([a, b, c, d, e]) <==>
              a != b && a != c && a != d && a != e && b != c && b != d && b != e && c != d && c != e && d != e
  {
    var t := [a, b, c, d, e];
    assert t[0] == a && t[1] == b && t[2] == c && t[3] == d && t[4] == e;
    if Distinct(t) {
      assert t[0] != t[1] && t[0] != t[2] && t[0] != t[3] && t[0] != t[4] && t[1] != t[2];
      assert t[1] != t[3] && t[1] != t[4] && t[2] != t[3] && t[2] != t[4] && t[3] != t[4];
    } else {
      var i, j :| 0 <= i < j < 5 && t[i] == t[j];
      assert i == 0 || i == 1 || i == 2 || i == 3;
      assert j == 1 || j == 2 || j == 3 || j == 4;
    }
  }

  lemma TuplesBelowNext(lo: int, hi: int, prefix: seq<int>, depth: nat, x: int)
    requires depth > 0 && lo <= x
    ensures TuplesBelow(lo, hi, prefix, depth, x + 1) == TuplesBelow(lo, hi, prefix, depth, x) + Tuples(lo, hi, prefix + [x], depth - 1)
  {
  }

  /** The two innermost loops of `main`, pushing the tuples that start with a, b, c. */
  method InnerTuples(lo: int, hi: int, a: int, b: int, c: int) returns (found: seq<seq<int>>)
    ensures found == Tuples(lo, hi, [a, b, c], 2)
  {
    found := [];
    var d := lo;
    while d < hi
      invariant lo <= d <= (if hi < lo then lo else hi)
      invariant found == TuplesBelow(lo, hi, [a, b, c], 2, d)
    {
      ghost var base := found;
      var e := lo;
      while e < hi
        invariant lo <= e <= hi
        invariant found == base + TuplesBelow(lo, hi, [a, b, c, d], 1, e)
      {
        DistinctFive(a, b, c, d, e);
        assert [a, b, c, d] + [e] == [a, b, c, d, e];
        TuplesBelowNext(lo, hi, [a, b, c, d], 1, e);
        if a == b || a == c || a == d || a == e {
          e := e + 1;
          continue;
        }
        if b == c || b == d || b == e {
          e := e + 1;
          continue;
        }
        if c == d || c == e {
          e := e + 1;
          continue;
        }
        if d == e {
          e := e + 1;
          continue;
        }
        found := found + [[a, b, c, d, e]];
        e := e + 1;
      }
      assert [a, b, c] + [d] == [a, b, c, d];
      TuplesBelowNext(lo, hi, [a, b, c], 2, d);
      d := d + 1;
    }
  }

  /** The nested loops of `main` that fill `inputs` with the phase tuples drawn from lo..hi-1. */
  method PhaseTuples(lo: int, hi: int) returns (inputs: seq<seq<int>>)
    ensures inputs == Tuples(lo, hi, [], 5)
  {
    inputs := [];
    var a := lo;
    while a < hi
      invariant lo <= a <= (if hi < lo then lo else hi)
      invariant inputs == TuplesBelow(lo, hi, [], 5, a)
    {
      var found := OuterTuples(lo, hi, a);
      inputs := inputs + found;
      assert [] + [a] == [a];
      TuplesBelowNext(lo, hi, [], 5, a);
      a := a + 1;
    }
  }

  /** The loops of `main` below the first, pushing the tuples that start with a. */
  method OuterTuples(lo: int, hi: int, a: int) returns (found: seq<seq<int>>)
    ensures found == Tuples(lo, hi, [a], 4)
  {
    found := [];
    var b := lo;
    while b < hi
      invariant lo <= b <= (if hi < lo then lo else hi)
      invariant found == TuplesBelow(lo, hi, [a], 4, b)
    {
      var more := MiddleTuples(lo, hi, a, b);
      found := found + more;
      assert [a] + [b] == [a, b];
      TuplesBelowNext(lo, hi, [a], 4, b);
      b := b + 1;
    }
  }

  /** The three innermost loops of `main`, pushing the tuples that start with a, b. */
  method MiddleTuples(lo: int, hi: int, a: int, b: int) returns (found: seq<seq<int>>)
    ensures found == Tuples(lo, hi, [a, b], 3)
  {
    found := [];
    var c := lo;
    while c < hi
      invariant lo <= c <= (if hi < lo then lo else hi)
      invariant found == TuplesBelow(lo, hi, [a, b], 3, c)
    {
      var more := InnerTuples(lo, hi, a, b, c);
      found := found + more;
      assert [a, b] + [c] == [a, b, c];
      TuplesBelowNext(lo, hi, [a, b], 3, c);
      c := c + 1;
    }
  }

  // Part 1: five amplifiers in a chain.

  /** Runs a fresh amplifier on `memory` with the given inputs; running out of instructions in the model is `Exhausted`. */
  function RunFresh(m: Machine, fuel: nat): (r: Result<Machine>)
  {
    match IntcodeUnified.Run(SuspendOnEmpty, m, fuel)
    case Faulted(f) => Err(f)
    case OutOfFuel(_) => Err(Exhausted)
    case Suspended(n) => Ok(n)
    case Halted(n) => Ok(n)
  }

  /** `amp.output[0]`, which panics when the amplifier printed nothing. */
  function FirstOutput(m: Machine): (r: Result<int>)
    ensures r.Ok? <==> |m.output| > 0
  {
    if |m.output| > 0 then Ok(m.output[0]) else Err(NoOutput)
  }

  /** One amplifier of the chain: a fresh machine with `[phase, signal]` as input, run, then its first output. */
  function StageOf(memory: seq<int>, phase: int, signal: int, fuel: nat): Result<int>
  {
    var n :- RunFresh(Machine(0, memory, [phase, signal], [], false), fuel);
    FirstOutput(n)
  }

  /** Each amplifier gets its phase and the previous amplifier's first output (0 for the first). */
  function Chain(memory: seq<int>, phases: seq<int>, signal: int, fuel: nat): Result<int>
  {
    if phases == [] then Ok(signal)
    else
      var out :- StageOf(memory, phases[0], signal, fuel);
      Chain(memory, phases[1..], out, fuel)
  }

  /** A chain faults exactly when one of its amplifiers does, and otherwise carries each stage's output to the next. */
  lemma ChainSplits(memory: seq<int>, phases: seq<int>, signal: int, fuel: nat)
    requires phases != []
    ensures StageOf(memory, phases[0], signal, fuel).Err? ==> Chain(memory, phases, signal, fuel) == Err(StageOf(memory, phases[0], signal, fuel).fault)
    ensures StageOf(memory, phases[0], signal, fuel).Ok? ==>
              Chain(memory, phases, signal, fuel) == Chain(memory, phases[1..], StageOf(memory, phases[0], signal, fuel).value, fuel)
  {
  }

  /** `amp.input.push(phase); amp.input.push(signal); amp.run(); amp.output[0]` on a fresh amplifier. */
  method Stage(amp: Amplifier, phase: int, signal: int, fuel: nat) returns (r: Result<int>)
    requires amp.State() == Machine(0, amp.memory, [], [], false)
    modifies amp
    ensures r == StageOf(old(amp.memory), phase, signal, fuel)
  {
    amp.input := amp.input + [phase, signal];
    assert amp.State() == Machine(0, old(amp.memory), [phase, signal], [], false);
    var o := amp.Run(fuel);
    if o.Faulted? {
      return Err(o.fault);
    }
    if o.OutOfFuel? {
      return Err(Exhausted);
    }
    if |amp.output| == 0 {
      return Err(NoOutput);
    }
    return Ok(amp.output[0]);
  }

  /** The body of the part 1 loop for one phase tuple: the thrust out of amplifier E. */
  method ChainThrust(memory: seq<int>, input: seq<int>, fuel: nat) returns (r: Result<int>)
    requires |input| >= 5
    ensures r == Chain(memory, input[..5], 0, fuel)
  {
    ghost var p := input[..5];
    assert p[1..] == input[1..5] && input[1..5][1..] == input[2..5] && input[2..5][1..] == input[3..5];
    assert input[3..5][1..] == input[4..5] && input[4..5][1..] == [];
    var ampA := new Amplifier(memory);
    var ampB := new Amplifier(memory);
    var ampC := new Amplifier(memory);
    var ampD := new Amplifier(memory);
    var ampE := new Amplifier(memory);
    ChainSplits(memory, p, 0, fuel);
    var a :- Stage(ampA, input[0], 0, fuel);
    ChainSplits(memory, input[1..5], a, fuel);
    var b :- Stage(ampB, input[1], a, fuel);
    ChainSplits(memory, input[2..5], b, fuel);
    var c :- Stage(ampC, input[2], b, fuel);
    ChainSplits(memory, input[3..5], c, fuel);
    var d :- Stage(ampD, input[3], c, fuel);
    ChainSplits(memory, input[4..5], d, fuel);
    var e :- Stage(ampE, input[4], d, fuel);
    return Ok(e);
  }

  /**
   * The best thrust over `inputs` in order: a later tuple replaces the best
   * only with a strictly larger thrust, starting from thrust 0 and no tuple.
   */
  function Best(memory: seq<int>, inputs: seq<seq<int>>, fuel: nat): Result<(int, seq<int>)>
    requires forall i :: 0 <= i < |inputs| ==> |inputs[i]| >= 5
  {
    if inputs == [] then Ok((0, []))
    else
      var sofar :- Best(memory, inputs[..|inputs| - 1], fuel);
      var last := inputs[|inputs| - 1];
      var v :- Chain(memory, last[..5], 0, fuel);
      if v > sofar.0 then Ok((v, last)) else Ok(sofar)
  }

  /**
   * The best thrust is at least 0 and at least the thrust of every tuple;
   * unless it is the initial 0, it is the thrust of the earliest tuple that
   * reaches it.
   */
  lemma {:induction false} BestIsMaximal(memory: seq<int>, inputs: seq<seq<int>>, fuel: nat)
    requires forall i :: 0 <= i < |inputs| ==> |inputs[i]| >= 5
    requires Best(memory, inputs, fuel).Ok?
    ensures var (mx, mi) := Best(memory, inputs, fuel).value;
            && mx >= 0
            && (forall i :: 0 <= i < |inputs| ==> Chain(memory, inputs[i][..5], 0, fuel).Ok? && Chain(memory, inputs[i][..5], 0, fuel).value <= mx)
            && ((mx == 0 && mi == []) ||
                exists k :: 0 <= k < |inputs| && inputs[k] == mi && Chain(memory, mi[..5], 0, fuel) == Ok(mx)
                  && forall i :: 0 <= i < k ==> Chain(memory, inputs[i][..5], 0, fuel).value < mx)
  {
    BestBounds(memory, inputs, fuel);
    BestEarliest(memory, inputs, fuel);
  }

  /** The best thrust is at least 0 and at least the thrust of every tuple. */
  lemma {:induction false} BestBounds(memory: seq<int>, inputs: seq<seq<int>>, fuel: nat)
    requires forall i :: 0 <= i < |inputs| ==> |inputs[i]| >= 5
    requires Best(memory, inputs, fuel).Ok?
    ensures Best(memory, inputs, fuel).value.0 >= 0
    ensures forall i :: 0 <= i < |inputs| ==>
              Chain(memory, inputs[i][..5], 0, fuel).Ok? && Chain(memory, inputs[i][..5], 0, fuel).value <= Best(memory, inputs, fuel).value.0
  {
    if inputs != [] {
      var init := inputs[..|inputs| - 1];
      var last := inputs[|inputs| - 1];
      var mx := Best(memory, inputs, fuel).value.0;
      assert Best(memory, init, fuel).Ok? && Best(memory, init, fuel).value.0 <= mx;
      assert Chain(memory, last[..5], 0, fuel).Ok? && Chain(memory, last[..5], 0, fuel).value <= mx;
      BestBounds(memory, init, fuel);
      assert inputs == init + [last];
      SnocBounded(memory, init, last, fuel, mx);
    }
  }

  /** Bounds on the thrusts of init and of last bound the thrusts of init + [last]. */
  lemma SnocBounded(memory: seq<int>, init: seq<seq<int>>, last: seq<int>, fuel: nat, mx: int)
    requires |last| >= 5 && forall i :: 0 <= i < |init| ==> |init[i]| >= 5
    requires forall i :: 0 <= i < |init| ==>
               Chain(memory, init[i][..5], 0, fuel).Ok? && Chain(memory, init[i][..5], 0, fuel).value <= mx
    requires Chain(memory, last[..5], 0, fuel).Ok? && Chain(memory, last[..5], 0, fuel).value <= mx
    ensures forall i :: 0 <= i < |init| + 1 ==>
              Chain(memory, (init + [last])[i][..5], 0, fuel).Ok? && Chain(memory, (init + [last])[i][..5], 0, fuel).value <= mx
  {
    forall i | 0 <= i < |init| + 1
      ensures Chain(memory, (init + [last])[i][..5], 0, fuel).Ok? && Chain(memory, (init + [last])[i][..5], 0, fuel).value <= mx
    {
      if i < |init| {
        assert (init + [last])[i] == init[i];
      } else {
        assert (init + [last])[i] == last;
      }
    }
  }

  /** Unless the best is the initial (0, no tuple), it is the thrust of the earliest tuple that reaches it. */
  lemma {:induction false} BestEarliest(memory: seq<int>, inputs: seq<seq<int>>, fuel: nat)
    requires forall i :: 0 <= i < |inputs| ==> |inputs[i]| >= 5
    requires Best(memory, inputs, fuel).Ok?
    ensures var (mx, mi) := Best(memory, inputs, fuel).value;
            (mx == 0 && mi == []) ||
            exists k :: 0 <= k < |inputs| && inputs[k] == mi && Chain(memory, mi[..5], 0, fuel) == Ok(mx)
              && forall i :: 0 <= i < k ==> Chain(memory, inputs[i][..5], 0, fuel).Ok? && Chain(memory, inputs[i][..5], 0, fuel).value < mx
  {
    if inputs != [] {
      var init := inputs[..|inputs| - 1];
      BestEarliest(memory, init, fuel);
      BestBounds(memory, init, fuel);
      var (mx0, mi0) := Best(memory, init, fuel).value;
      var last := inputs[|inputs| - 1];
      var v := Chain(memory, last[..5], 0, fuel).value;
      assert forall i :: 0 <= i < |init| ==> inputs[i] == init[i];
      if v > mx0 {
        assert inputs[|inputs| - 1] == last;
      } else if mi0 != [] || mx0 != 0 {
        var k :| 0 <= k < |init| && init[k] == mi0 && Chain(memory, mi0[..5], 0, fuel) == Ok(mx0)
                 && forall i :: 0 <= i < k ==> Chain(memory, init[i][..5], 0, fuel).Ok? && Chain(memory, init[i][..5], 0, fuel).value < mx0;
        assert inputs[k] == mi0;
      }
    }
  }

  /** The part 1 loop over the phase tuples, keeping the strictly largest thrust. */
  method BestThrust(memory: seq<int>, inputs: seq<seq<int>>, fuel: nat) returns (r: Result<(int, seq<int>)>)
    requires forall i :: 0 <= i < |inputs| ==> |inputs[i]| >= 5
    ensures r == Best(memory, inputs, fuel)
  {
    var maxOutput := 0;
    var maxInput: seq<int> := [];
    var i := 0;
    while i < |inputs|
      invariant 0 <= i <= |inputs|
      invariant Best(memory, inputs[..i], fuel) == Ok((maxOutput, maxInput))
    {
      assert inputs[..i + 1][..i] == inputs[..i];
      assert inputs[..i + 1][i] == inputs[i];
      var v := ChainThrust(memory, inputs[i], fuel);
      if v.Err? {
        assert Best(memory, inputs[..i + 1], fuel) == Err(v.fault);
        BestErrPersists(memory, inputs, i + 1, fuel);
        return Err(v.fault);
      }
      if v.value > maxOutput {
        maxOutput := v.value;
        maxInput := inputs[i];
      }
      i := i + 1;
    }
    assert inputs[..i] == inputs;
    return Ok((maxOutput, maxInput));
  }

  lemma {:induction false} BestErrPersists(memory: seq<int>, inputs: seq<seq<int>>, k: nat, fuel: nat)
    requires forall i :: 0 <= i < |inputs| ==> |inputs[i]| >= 5
    requires k <= |inputs| && Best(memory, inputs[..k], fuel).Err?
    ensures Best(memory, inputs, fuel) == Best(memory, inputs[..k], fuel)
    decreases |inputs| - k
  {
    if k < |inputs| {
      assert inputs[..k + 1][..k] == inputs[..k];
      BestErrPersists(memory, inputs, k + 1, fuel);
    } else {
      assert inputs[..k] == inputs;
    }
  }

  // Part 2: the feedback loop.

  datatype Bank = Bank(a: Machine, b: Machine, c: Machine, d: Machine, e: Machine)

  predicate AnyHalted(k: Bank)
  {
    k.a.halt || k.b.halt || k.c.halt || k.d.halt || k.e.halt
  }

  /**
   * `dst.input.push(src.output.pop().unwrap()); dst.run()`: the last output
   * of `src` moves to the back of `dst`'s input, then `dst` runs.
   */
  function Pass(src: Machine, dst: Machine, fuel: nat): (r: Result<(Machine, Machine)>)
    ensures r.Ok? ==> |src.output| > 0 && r.value.0 == src.(output := src.output[..|src.output| - 1])
    ensures |src.output| == 0 ==> r == Err(NoOutput)
  {
    if |src.output| == 0 then Err(NoOutput)
    else
      var v := src.output[|src.output| - 1];
      var n :- RunFresh(dst.(input := dst.input + [v]), fuel);
      Ok((src.(output := src.output[..|src.output| - 1]), n))
  }

  /** One pass of the `while` loop: E feeds A, A feeds B, and so on round to E. */
  function Round(k: Bank, fuel: nat): Result<Bank>
  {
    var ea :- Pass(k.e, k.a, fuel);
    var ab :- Pass(ea.1, k.b, fuel);
    var bc :- Pass(ab.1, k.c, fuel);
    var cd :- Pass(bc.1, k.d, fuel);
    var de :- Pass(cd.1, ea.0, fuel);
    Ok(Bank(ab.0, bc.0, cd.0, de.0, de.1))
  }

  /** The loop: it stops when E has halted before a round, or when any amplifier halted during one. */
  function Feedback(k: Bank, rounds: nat, fuel: nat): (r: Result<Bank>)
    decreases rounds
    ensures r.Ok? ==> r.value.e.halt || AnyHalted(r.value)
  {
    if k.e.halt then Ok(k)
    else if rounds == 0 then Err(Exhausted)
    else
      var next :- Round(k, fuel);
      if AnyHalted(next) then Ok(next) else Feedback(next, rounds - 1, fuel)
  }

  /** The amplifiers as part 2 sets them up: each holds its phase, and E's output holds the initial signal 0. */
  function Primed(memory: seq<int>, phases: seq<int>): Bank
    requires |phases| >= 5
  {
    Bank(Machine(0, memory, [phases[0]], [], false), Machine(0, memory, [phases[1]], [], false),
         Machine(0, memory, [phases[2]], [], false), Machine(0, memory, [phases[3]], [], false),
         Machine(0, memory, [phases[4]], [0], false))
  }

  function FeedbackThrustOf(memory: seq<int>, phases: seq<int>, rounds: nat, fuel: nat): Result<int>
    requires |phases| >= 5
  {
    var fin :- Feedback(Primed(memory, phases), rounds, fuel);
    FirstOutput(fin.e)
  }

  /** The thrust is E's first output in the bank the loop ends with. */
  lemma ThrustOfFinal(memory: seq<int>, phases: seq<int>, rounds: nat, fuel: nat, fin: Bank)
    requires |phases| >= 5 && Feedback(Primed(memory, phases), rounds, fuel) == Ok(fin)
    ensures FeedbackThrustOf(memory, phases, rounds, fuel) == FirstOutput(fin.e)
  {
  }

  /** A round that halts no amplifier hands the loop on to the next round. */
  lemma FeedbackContinues(k: Bank, next: Bank, before: nat, after: nat, fuel: nat)
    requires !k.e.halt && before == after + 1 && Round(k, fuel) == Ok(next) && !AnyHalted(next)
    ensures Feedback(k, before, fuel) == Feedback(next, after, fuel)
  {
    FeedbackUnfolds(k, next, after, fuel);
  }

  lemma FeedbackUnfolds(k: Bank, next: Bank, after: nat, fuel: nat)
    requires !k.e.halt && Round(k, fuel) == Ok(next) && !AnyHalted(next)
    ensures Feedback(k, after + 1, fuel) == Feedback(next, after, fuel)
  {
    var round := Round(k, fuel);
    assert !round.IsFailure() && round.Extract() == next;
  }

  /** A round that halts some amplifier ends the loop with that bank. */
  lemma FeedbackStops(k: Bank, next: Bank, rounds: nat, fuel: nat)
    requires !k.e.halt && rounds > 0 && Round(k, fuel) == Ok(next) && AnyHalted(next)
    ensures Feedback(k, rounds, fuel) == Ok(next)
  {
    var round := Round(k, fuel);
    assert !round.IsFailure() && round.Extract() == next;
  }

  /** `dst.input.push(src.output.pop().unwrap()); dst.run()` on the two amplifier objects. */
  method Relay(src: Amplifier, dst: Amplifier, fuel: nat) returns (r: Result<()>)
    requires src != dst
    modifies src, dst
    ensures var p := Pass(old(src.State()), old(dst.State()), fuel);
            && (p.Ok? <==> r.Ok?)
            && (p.Err? ==> r == Err(p.fault))
            && (p.Ok? ==> src.State() == p.value.0 && dst.State() == p.value.1)
  {
    if |src.output| == 0 {
      return Err(NoOutput);
    }
    var v := src.output[|src.output| - 1];
    src.output := src.output[..|src.output| - 1];
    dst.input := dst.input + [v];
    var o := dst.Run(fuel);
    if o.Faulted? {
      return Err(o.fault);
    }
    if o.OutOfFuel? {
      return Err(Exhausted);
    }
    return Ok(());
  }

  function BankOf(a: Amplifier, b: Amplifier, c: Amplifier, d: Amplifier, e: Amplifier): Bank
    reads a, b, c, d, e
  {
    Bank(a.State(), b.State(), c.State(), d.State(), e.State())
  }

  /** One pass of the `while !amp_e.halt` body over the five amplifier objects. */
  method Cycle(ampA: Amplifier, ampB: Amplifier, ampC: Amplifier, ampD: Amplifier, ampE: Amplifier, fuel: nat) returns (r: Result<()>)
    requires ampA != ampB && ampA != ampC && ampA != ampD && ampA != ampE && ampB != ampC
    requires ampB != ampD && ampB != ampE && ampC != ampD && ampC != ampE && ampD != ampE
    modifies ampA, ampB, ampC, ampD, ampE
    ensures Round(old(BankOf(ampA, ampB, ampC, ampD, ampE)), fuel).Ok? <==> r.Ok?
    ensures r.Err? ==> r == Err(Round(old(BankOf(ampA, ampB, ampC, ampD, ampE)), fuel).fault)
    ensures r.Ok? ==> BankOf(ampA, ampB, ampC, ampD, ampE) == Round(old(BankOf(ampA, ampB, ampC, ampD, ampE)), fuel).value
  {
    ghost var k := BankOf(ampA, ampB, ampC, ampD, ampE);
    var s1 := Relay(ampE, ampA, fuel);
    if s1.Err? {
      return Err(s1.fault);
    }
    ghost var ea := (ampE.State(), ampA.State());
    var s2 := Relay(ampA, ampB, fuel);
    if s2.Err? {
      return Err(s2.fault);
    }
    ghost var ab := (ampA.State(), ampB.State());
    var s3 := Relay(ampB, ampC, fuel);
    if s3.Err? {
      return Err(s3.fault);
    }
    ghost var bc := (ampB.State(), ampC.State());
    var s4 := Relay(ampC, ampD, fuel);
    if s4.Err? {
      return Err(s4.fault);
    }
    ghost var cd := (ampC.State(), ampD.State());
    assert ampE.State() == ea.0;
    var s5 := Relay(ampD, ampE, fuel);
    if s5.Err? {
      return Err(s5.fault);
    }
    assert BankOf(ampA, ampB, ampC, ampD, ampE) == Bank(ab.0, bc.0, cd.0, ampD.State(), ampE.State());
    return Ok(());
  }

  /** `amplifier(memory)` followed by `input.push(phase)`. */
  method Phased(memory: seq<int>, phase: int) returns (amp: Amplifier)
    ensures fresh(amp) && amp.State() == Machine(0, memory, [phase], [], false)
  {
    amp := new Amplifier(memory);
    amp.input := amp.input + [phase];
  }

  /** The `while !amp_e.halt` loop of part 2, with at most `rounds` passes. */
  method FeedbackLoop(ampA: Amplifier, ampB: Amplifier, ampC: Amplifier, ampD: Amplifier, ampE: Amplifier, rounds: nat, fuel: nat)
    returns (r: Result<()>)
    requires ampA != ampB && ampA != ampC && ampA != ampD && ampA != ampE && ampB != ampC
    requires ampB != ampD && ampB != ampE && ampC != ampD && ampC != ampE && ampD != ampE
    modifies ampA, ampB, ampC, ampD, ampE
    ensures Feedback(old(BankOf(ampA, ampB, ampC, ampD, ampE)), rounds, fuel).Ok? <==> r.Ok?
    ensures r.Err? ==> r == Err(Feedback(old(BankOf(ampA, ampB, ampC, ampD, ampE)), rounds, fuel).fault)
    ensures r.Ok? ==> BankOf(ampA, ampB, ampC, ampD, ampE) == Feedback(old(BankOf(ampA, ampB, ampC, ampD, ampE)), rounds, fuel).value
  {
    ghost var start := BankOf(ampA, ampB, ampC, ampD, ampE);
    var left := rounds;
    ghost var cur := start;
    while !ampE.halt
      invariant cur == BankOf(ampA, ampB, ampC, ampD, ampE)
      invariant Feedback(start, rounds, fuel) == Feedback(cur, left, fuel)
      decreases left
    {
      if left == 0 {
        return Err(Exhausted);
      }
      ghost var k := cur;
      var round := Cycle(ampA, ampB, ampC, ampD, ampE, fuel);
      if round.Err? {
        return Err(round.fault);
      }
      cur := Round(k, fuel).value;
      if ampA.halt || ampB.halt || ampC.halt || ampD.halt || ampE.halt {
        FeedbackStops(k, cur, left, fuel);
        return Ok(());
      }
      ghost var before := left;
      left := left - 1;
      FeedbackContinues(k, cur, before, left, fuel);
    }
    return Ok(());
  }

  /** The body of the part 2 loop for one phase tuple, with at most `rounds` passes of the feedback loop. */
  method FeedbackThrust(memory: seq<int>, input: seq<int>, rounds: nat, fuel: nat) returns (r: Result<int>)
    requires |input| >= 5
    ensures r == FeedbackThrustOf(memory, input, rounds, fuel)
  {
    var ampA := Phased(memory, input[0]);
    var ampB := Phased(memory, input[1]);
    var ampC := Phased(memory, input[2]);
    var ampD := Phased(memory, input[3]);
    var ampE := Phased(memory, input[4]);
    ampE.output := ampE.output + [0];
    assert BankOf(ampA, ampB, ampC, ampD, ampE) == Primed(memory, input);
    var looped := FeedbackLoop(ampA, ampB, ampC, ampD, ampE, rounds, fuel);
    if looped.Err? {
      return Err(looped.fault);
    }
    ThrustOfFinal(memory, input, rounds, fuel, BankOf(ampA, ampB, ampC, ampD, ampE));
    if |ampE.output| == 0 {
      return Err(NoOutput);
    }
    return Ok(ampE.output[0]);
  }
}
