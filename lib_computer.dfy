/**
 * The shared IntCode computer of archive/2019/intcode/src/lib.rs: a
 * `Computer` object whose `run` updates its fields in place, with the
 * indirect destination rule, and its `print_program` listing walk.
 */
module LibComputer {
  import opened IntcodeDecode
  import opened IntcodeSplit

  /** Where the listing goes after one instruction: it ends at 99, or moves on. */
  datatype Advance = AtHalt | Next(pos: nat)

  /**
   * One pass of the `print_program` loop at `pos`: an instruction it
   * recognises is decoded with its parameters and skipped, an unknown
   * opcode advances one word, and opcode 99 is decoded with one parameter
   * and ends the listing.
   */
  function StrideAt(program: seq<int>, pos: nat): (r: Result<Advance>)
    requires pos < |program|
    ensures r.Ok? && r.value.Next? ==> r.value.pos == pos + 1 + Width(Rem(program[pos], 100))
    ensures r.Ok? ==> (r.value.AtHalt? <==> Rem(program[pos], 100) == 99)
  {
    var head :- Decode(program, pos, 0);
    if head.opcode == 99 then
      var ins :- Decode(program, pos, 1);
      Ok(AtHalt)
    else
      var ins :- Decode(program, pos, Width(head.opcode));
      Ok(Next(pos + 1 + Width(head.opcode)))
  }

  /** The positions `print_program` lists from `pos`; a decoding panic cuts the walk short with a fault. */
  function Listing(program: seq<int>, pos: nat): (r: Result<seq<nat>>)
    decreases |program| - pos
    ensures r.Ok? && pos < |program| ==> |r.value| > 0 && r.value[0] == pos
    ensures r.Ok? && pos >= |program| ==> r.value == []
  {
    if pos >= |program| then Ok([])
    else
      var s :- StrideAt(program, pos);
      match s
      case AtHalt => Ok([pos])
      case Next(next) =>
        var rest :- Listing(program, next);
        Ok([pos] + rest)
  }

  /**
   * Every listed position lies in the program, each one follows its
   * predecessor by that instruction's width, and only the last can be 99.
   */
  lemma {:induction false} ListingShape(program: seq<int>, pos: nat)
    requires Listing(program, pos).Ok?
    ensures var l := Listing(program, pos).value;
            && (forall i :: 0 <= i < |l| ==> pos <= l[i] < |program|)
            && (forall i :: 0 <= i < |l| - 1 ==> l[i + 1] == l[i] + 1 + Width(Rem(program[l[i]], 100)))
            && (forall i :: 0 <= i < |l| - 1 ==> Rem(program[l[i]], 100) != 99)
    decreases |program| - pos
  {
    if pos < |program| && StrideAt(program, pos).value.Next? {
      {
        var next := StrideAt(program, pos).value.pos;
        ListingShape(program, next);
        var rest := Listing(program, next).value;
        var l := Listing(program, pos).value;
        assert l == [pos] + rest;
        forall i | 0 <= i < |l| - 1
          ensures l[i + 1] == l[i] + 1 + Width(Rem(program[l[i]], 100))
        {
          if i > 0 {
            assert l[i] == rest[i - 1] && l[i + 1] == rest[i];
          }
        }
      }
    }
  }

  /** The listing stops early only at opcode 99: otherwise it runs past the end of the program. */
  lemma {:induction false} ListingEnds(program: seq<int>, pos: nat)
    requires Listing(program, pos).Ok? && |Listing(program, pos).value| > 0
    ensures var l := Listing(program, pos).value;
            var last := l[|l| - 1];
            last < |program| && (Rem(program[last], 100) == 99 || last + 1 + Width(Rem(program[last], 100)) >= |program|)
    decreases |program| - pos
  {
    if StrideAt(program, pos).value.Next? {
      var next := StrideAt(program, pos).value.pos;
      var rest := Listing(program, next).value;
      if |rest| > 0 {
        ListingEnds(program, next);
        assert Listing(program, pos).value == [pos] + rest;
      }
    }
  }

  /** The listing from `pos` is the stride at `pos` followed by the listing after it. */
  lemma ListingUnfolds(program: seq<int>, pos: nat)
    requires pos < |program|
    ensures StrideAt(program, pos).Err? ==> Listing(program, pos) == Err(StrideAt(program, pos).fault)
    ensures StrideAt(program, pos) == Ok(AtHalt) ==> Listing(program, pos) == Ok([pos])
    ensures StrideAt(program, pos).Ok? && StrideAt(program, pos).value.Next? ==>
      var next := StrideAt(program, pos).value.pos;
      (Listing(program, pos).Ok? <==> Listing(program, next).Ok?) &&
      (Listing(program, pos).Ok? ==> Listing(program, pos).value == [pos] + Listing(program, next).value) &&
      (Listing(program, pos).Err? ==> Listing(program, pos) == Listing(program, next))
  {
  }

  /** The positions listed so far, then `pos`, then the listing after it. */
  lemma ListingGlue(program: seq<int>, pos: nat, next: nat, listed: seq<nat>)
    requires pos < |program| && StrideAt(program, pos) == Ok(Next(next))
    requires Listing(program, 0).Ok? ==> Listing(program, pos).Ok? && Listing(program, 0).value == listed + Listing(program, pos).value
    requires Listing(program, 0).Err? ==> Listing(program, pos) == Listing(program, 0)
    ensures Listing(program, 0).Ok? ==> Listing(program, next).Ok? && Listing(program, 0).value == listed + [pos] + Listing(program, next).value
    ensures Listing(program, 0).Err? ==> Listing(program, next) == Listing(program, 0)
  {
    ListingUnfolds(program, pos);
    if Listing(program, 0).Ok? {
      assert (listed + [pos]) + Listing(program, next).value == listed + ([pos] + Listing(program, next).value);
    }
  }

  /** The body of the `print_program` loop, decoding through `parse_opcode`. */
  method ListStep(program: seq<int>, pos: nat) returns (r: Result<Advance>)
    requires pos < |program|
    ensures r == StrideAt(program, pos)
  {
    var head := ParseOpcode(program, pos, 0);
    if head.Err? {
      return Err(head.fault);
    }
    var op := head.value.opcode;
    var len := if op == 99 then 1 else Width(op);
    var ins := ParseOpcode(program, pos, len);
    if ins.Err? {
      return Err(ins.fault);
    }
    if op == 99 {
      return Ok(AtHalt);
    }
    return Ok(Next(pos + 1 + Width(op)));
  }

  /** What one instruction at the head of a run with fuel left makes of the run. */
  lemma RunOnce(rule: DestinationRule, m: Machine, fuel: nat)
    requires fuel > 0
    ensures Step(rule, m).Err? ==> IntcodeSplit.Run(rule, m, fuel) == Faulted(Step(rule, m).fault)
    ensures Step(rule, m) == Ok(Blocked) ==> IntcodeSplit.Run(rule, m, fuel) == Suspended(m)
    ensures Step(rule, m).Ok? && Step(rule, m).value.Stopped? ==> IntcodeSplit.Run(rule, m, fuel) == Halted(Step(rule, m).value.next)
  {
    assert StepOf(rule)(m) == Step(rule, m);
  }

  /** A step that continues hands the rest of the run on to the next machine. */
  lemma RunHandsOn(rule: DestinationRule, m: Machine, n: Machine, before: nat, after: nat)
    requires before == after + 1
    requires Step(rule, m) == Ok(Stepped(n))
    ensures IntcodeSplit.Run(rule, m, before) == IntcodeSplit.Run(rule, n, after)
  {
    RunStep(rule, m, n, before);
  }

  class Computer {
    var pc: int
    var relative: int
    var program: seq<int>
    var memory: seq<int>
    var input: seq<int>
    var output: seq<int>
    var halt: bool

    function State(): Machine
      reads this
    {
      Machine(pc, relative, program, memory, input, output, halt)
    }

    /** `intcode::new`: everything empty, pc and relative base at 0, not halted. */
    constructor ()
      ensures State() == Machine(0, 0, [], [], [], [], false)
    {
      pc, relative, program, memory, input, output, halt := 0, 0, [], [], [], [], false;
    }

    /**
     * `run`: executes instructions until opcode 99 (setting `halt`) or until
     * opcode 3 finds no input (returning with the machine parked at that
     * instruction).  At most `fuel` instructions are executed.
     */
    method Run(fuel: nat) returns (outcome: Outcome<Machine>)
      modifies this
      ensures outcome == IntcodeSplit.Run(Indirect, old(State()), fuel)
      ensures !outcome.Faulted? ==> State() == outcome.state
    {
      var left: nat := fuel;
      while left > 0
        invariant IntcodeSplit.Run(Indirect, old(State()), fuel) == IntcodeSplit.Run(Indirect, State(), left)
        decreases left
      {
        var m := State();
        var e := Step(Indirect, m);
        RunOnce(Indirect, m, left);
        if e.Err? {
          return Faulted(e.fault);
        }
        match e.value {
          case Blocked =>
            return Suspended(m);
          case Stopped(n) =>
            halt := true;
            assert State() == n;
            return Halted(n);
          case Stepped(n) =>
            pc, relative, memory, input, output := n.pc, n.relative, n.memory, n.input, n.output;
            assert State() == n;
            ghost var before := left;
            left := left - 1;
            RunHandsOn(Indirect, m, n, before, left);
        }
      }
      return OutOfFuel(State());
    }

    /** `print_program`: the positions of the listing, in order. */
    method PrintProgram() returns (r: Result<seq<nat>>)
      ensures r == Listing(program, 0)
    {
      var p := program;
      var pos: nat := 0;
      var listed: seq<nat> := [];
      while pos < |p|
        invariant Listing(p, 0).Ok? ==> Listing(p, pos).Ok? && Listing(p, 0).value == listed + Listing(p, pos).value
        invariant Listing(p, 0).Err? ==> Listing(p, pos) == Listing(p, 0)
        decreases |p| - pos
      {
        var stride := ListStep(p, pos);
        ListingUnfolds(p, pos);
        if stride.Err? {
          return Err(stride.fault);
        }
        if stride.value.AtHalt? {
          return Ok(listed + [pos]);
        }
        var next := stride.value.pos;
        ListingGlue(p, pos, next, listed);
        listed := listed + [pos];
        pos := next;
      }
      assert Listing(p, pos) == Ok([]);
      assert listed + [] == listed;
      return Ok(listed);
    }
  }
}
