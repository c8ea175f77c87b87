/** The register machine with a bound program counter: one register of a
    six-register bank holds the index of the next instruction; each step
    fetches that instruction, applies its opcode and adds one to the
    program-counter register. */
module Machine {
  import opened Opcodes

  datatype Instruction = Instruction(op: Op, a: nat, b: nat, c: nat)

  /** Every instruction names only registers of an `n`-register bank. */
  predicate ValidProgram(prog: seq<Instruction>, n: nat)
  {
    forall i :: 0 <= i < |prog| ==> WellFormed(prog[i].op, n, prog[i].a, prog[i].b, prog[i].c)
  }

  /** One fetch-execute-increment step on a register bank. */
  function Step(prog: seq<Instruction>, pcReg: nat, regs: seq<nat>): (r: seq<nat>)
    requires pcReg < |regs| && ValidProgram(prog, |regs|) && regs[pcReg] < |prog|
    ensures |r| == |regs|
  {
    var ins := prog[regs[pcReg]];
    var after := Apply(ins.op, regs, ins.a, ins.b, ins.c);
    after[pcReg := after[pcReg] + 1]
  }

  /** One transition: a step while the pc is inside the program; once it
      has left, the bank stands still. */
  function Next(prog: seq<Instruction>, pcReg: nat, regs: seq<nat>): (r: seq<nat>)
    requires pcReg < |regs| && ValidProgram(prog, |regs|)
    ensures |r| == |regs|
  {
    if regs[pcReg] >= |prog| then regs else Step(prog, pcReg, regs)
  }

  /** `Next` as a function value on banks of `width` registers. */
  function Transition(prog: seq<Instruction>, pcReg: nat, width: nat): seq<nat> --> seq<nat>
  {
    (regs: seq<nat>) requires |regs| == width && pcReg < width && ValidProgram(prog, width) => Next(prog, pcReg, regs)
  }

  /** `n` applications of `f`, which keeps the width of a bank. */
  function Repeat(f: seq<nat> --> seq<nat>, regs: seq<nat>, n: nat): seq<nat>
    requires forall s :: |s| == |regs| ==> f.requires(s) && |f(s)| == |s|
    ensures |Repeat(f, regs, n)| == |regs|
  {
    if n == 0 then regs else f(Repeat(f, regs, n - 1))
  }

  lemma {:induction false} RepeatAdd(f: seq<nat> --> seq<nat>, regs: seq<nat>, n: nat, m: nat)
    requires forall s :: |s| == |regs| ==> f.requires(s) && |f(s)| == |s|
    ensures Repeat(f, Repeat(f, regs, n), m) == Repeat(f, regs, n + m)
  {
    if m > 0 {
      RepeatAdd(f, regs, n, m - 1);
    }
  }

  /** Applying `f` once more at the front. */
  lemma {:induction false} RepeatFirst(f: seq<nat> --> seq<nat>, regs: seq<nat>, n: nat)
    requires forall s :: |s| == |regs| ==> f.requires(s) && |f(s)| == |s|
    ensures Repeat(f, regs, n + 1) == Repeat(f, f(regs), n)
  {
    if n > 0 {
      RepeatFirst(f, regs, n - 1);
    }
  }

  /** The bank after `n` steps, standing still once the program counter has
      left the program. */
  function Iterate(prog: seq<Instruction>, pcReg: nat, regs: seq<nat>, n: nat): (r: seq<nat>)
    requires pcReg < |regs| && ValidProgram(prog, |regs|)
    ensures |r| == |regs|
  {
    Repeat(Transition(prog, pcReg, |regs|), regs, n)
  }

  /** A bank of registers, one of which is the program counter. */
  class Registers {
    const regs: array<nat>
    const pcReg: nat

    ghost predicate Valid()
      reads this
    {
      pcReg < regs.Length
    }

    constructor (init: seq<nat>, pcReg: nat)
      requires pcReg < |init|
      ensures Valid() && fresh(regs)
      ensures regs[..] == init && this.pcReg == pcReg
    {
      regs := new nat[|init|](i requires 0 <= i < |init| => init[i]);
      this.pcReg := pcReg;
    }

    /** `registers[reg]` */
    function Get(reg: nat): nat
      requires reg < regs.Length
      reads this, regs
    {
      regs[reg]
    }

    /** `registers[reg] = value` */
    method Set(reg: nat, value: nat)
      requires reg < regs.Length
      modifies regs
      ensures regs[..] == old(regs[..])[reg := value]
      ensures Get(reg) == value
      ensures forall r :: 0 <= r < regs.Length && r != reg ==> Get(r) == old(Get(r))
    {
      regs[reg] := value;
    }

    /** The program counter: the value of register `pcReg`. */
    function Pc(): nat
      requires Valid()
      reads this, regs
    {
      regs[pcReg]
    }

    method IncrementPc()
      requires Valid()
      modifies regs
      ensures regs[..] == old(regs[..])[pcReg := old(regs[pcReg]) + 1]
    {
      regs[pcReg] := regs[pcReg] + 1;
    }

    /** `registers.pc = value`: writes the program-counter register only. */
    method SetPc(value: nat)
      requires Valid()
      modifies regs
      ensures regs[..] == old(regs[..])[pcReg := value]
    {
      regs[pcReg] := value;
    }
  }

  /** Fetch `instructions[pc]`, run its opcode, then increment the pc. */
  method ExecuteInstruction(r: Registers, prog: seq<Instruction>)
    requires r.Valid() && ValidProgram(prog, r.regs.Length) && r.Pc() < |prog|
    modifies r.regs
    ensures r.regs[..] == Step(prog, r.pcReg, old(r.regs[..]))
  {
    var ins := prog[r.Pc()];
    Exec(ins.op, r.regs, ins.a, ins.b, ins.c);
    r.IncrementPc();
  }

  /** The pc was inside the program for one more step. */
  lemma RunningOneMore(prog: seq<Instruction>, pcReg: nat, regs: seq<nat>, n: nat)
    requires pcReg < |regs| && ValidProgram(prog, |regs|)
    requires forall k :: 0 <= k < n ==> Iterate(prog, pcReg, regs, k)[pcReg] < |prog|
    requires Iterate(prog, pcReg, regs, n)[pcReg] < |prog|
    ensures forall k :: 0 <= k < n + 1 ==> Iterate(prog, pcReg, regs, k)[pcReg] < |prog|
  {
  }

  /** One iteration of the run loop, from the state after `n` steps. */
  method Advance(r: Registers, prog: seq<Instruction>, ghost init: seq<nat>, ghost n: nat)
    requires r.Valid() && |init| == r.regs.Length && ValidProgram(prog, |init|)
    requires r.regs[..] == Iterate(prog, r.pcReg, init, n) && r.Pc() < |prog|
    modifies r.regs
    ensures r.regs[..] == Iterate(prog, r.pcReg, init, n + 1)
  {
    IterateNext(prog, r.pcReg, init, n);
    ExecuteInstruction(r, prog);
  }

  /** `until registers.pc > instructions.size - 1 ... end`, with at most
      `fuel` steps: the source loop need not terminate. */
  method RunUntilHalt(r: Registers, prog: seq<Instruction>, fuel: nat) returns (halted: bool, steps: nat)
    requires r.Valid() && ValidProgram(prog, r.regs.Length)
    modifies r.regs
    ensures r.regs[..] == Iterate(prog, r.pcReg, old(r.regs[..]), steps)
    ensures halted <==> r.Pc() >= |prog|
    ensures !halted ==> steps == fuel
    ensures steps <= fuel
    ensures forall k :: 0 <= k < steps ==> Iterate(prog, r.pcReg, old(r.regs[..]), k)[r.pcReg] < |prog|
  {
    ghost var init := r.regs[..];
    steps := 0;
    while r.Pc() < |prog| && steps < fuel
      invariant r.Valid() && r.regs.Length == |init|
      invariant steps <= fuel
      invariant r.regs[..] == Iterate(prog, r.pcReg, init, steps)
      invariant forall k :: 0 <= k < steps ==> Iterate(prog, r.pcReg, init, k)[r.pcReg] < |prog|
      decreases fuel - steps
    {
      RunningOneMore(prog, r.pcReg, init, steps);
      Advance(r, prog, init, steps);
      steps := steps + 1;
    }
    halted := r.Pc() >= |prog|;
  }

  /** One of the two runs of the script: six registers, all 0 but `r0`. */
  method Run(prog: seq<Instruction>, pcReg: nat, r0: nat, fuel: nat) returns (halted: bool, regs: seq<nat>, steps: nat)
    requires pcReg < 6 && ValidProgram(prog, 6)
    ensures regs == Iterate(prog, pcReg, [r0, 0, 0, 0, 0, 0], steps)
    ensures halted <==> regs[pcReg] >= |prog|
    ensures !halted ==> steps == fuel
    ensures forall k :: 0 <= k < steps ==> Iterate(prog, pcReg, [r0, 0, 0, 0, 0, 0], k)[pcReg] < |prog|
  {
    var r := new Registers([r0, 0, 0, 0, 0, 0], pcReg);
    halted, steps := RunUntilHalt(r, prog, fuel);
    regs := r.regs[..];
  }

  // ---------------------------------------------------------------------
  // Properties of a step.

  /** A step changes at most register `c` and the program-counter register. */
  lemma StepFrame(prog: seq<Instruction>, pcReg: nat, regs: seq<nat>, i: nat)
    requires pcReg < |regs| && ValidProgram(prog, |regs|) && regs[pcReg] < |prog|
    requires i < |regs| && i != pcReg && i != prog[regs[pcReg]].c
    ensures Step(prog, pcReg, regs)[i] == regs[i]
  {
  }

  /** The pc register ends one past whatever the opcode left in it: an
      instruction that does not write the pc advances it by exactly one, and
      one that writes value `v` into the pc continues at `v + 1`. */
  lemma StepNextPc(prog: seq<Instruction>, pcReg: nat, regs: seq<nat>)
    requires pcReg < |regs| && ValidProgram(prog, |regs|) && regs[pcReg] < |prog|
    ensures var ins := prog[regs[pcReg]];
      Step(prog, pcReg, regs)[pcReg] ==
        (if ins.c == pcReg then Value(ins.op, regs, ins.a, ins.b) else regs[pcReg]) + 1
  {
  }

  /** `seti n _ pc` makes the next fetch happen at `n + 1`. */
  lemma SetiJumpsPastTarget(prog: seq<Instruction>, pcReg: nat, regs: seq<nat>)
    requires pcReg < |regs| && ValidProgram(prog, |regs|) && regs[pcReg] < |prog|
    requires prog[regs[pcReg]].op == Seti && prog[regs[pcReg]].c == pcReg
    ensures Step(prog, pcReg, regs)[pcReg] == prog[regs[pcReg]].a + 1
  {
  }

  /** Running `n` steps and then `m` more is running `n + m` steps. */
  lemma {:induction false} IterateAdd(prog: seq<Instruction>, pcReg: nat, regs: seq<nat>, n: nat, m: nat)
    requires pcReg < |regs| && ValidProgram(prog, |regs|)
    ensures Iterate(prog, pcReg, Iterate(prog, pcReg, regs, n), m) == Iterate(prog, pcReg, regs, n + m)
  {
    RepeatAdd(Transition(prog, pcReg, |regs|), regs, n, m);
  }

  /** Step `n + 1` is one transition from step `n`. */
  lemma IterateNext(prog: seq<Instruction>, pcReg: nat, regs: seq<nat>, n: nat)
    requires pcReg < |regs| && ValidProgram(prog, |regs|)
    ensures Iterate(prog, pcReg, regs, n + 1) == Next(prog, pcReg, Iterate(prog, pcReg, regs, n))
  {
  }

  /** Running `n + 1` steps is one step followed by `n` more. */
  lemma IterateFirstStep(prog: seq<Instruction>, pcReg: nat, regs: seq<nat>, n: nat)
    requires pcReg < |regs| && ValidProgram(prog, |regs|) && regs[pcReg] < |prog|
    ensures Iterate(prog, pcReg, regs, n + 1) == Iterate(prog, pcReg, Step(prog, pcReg, regs), n)
  {
    RepeatFirst(Transition(prog, pcReg, |regs|), regs, n);
  }

  /** Once halted, the machine stays halted with the same registers. */
  lemma {:induction false} HaltedStaysHalted(prog: seq<Instruction>, pcReg: nat, regs: seq<nat>, n: nat, m: nat)
    requires pcReg < |regs| && ValidProgram(prog, |regs|)
    requires n <= m && Iterate(prog, pcReg, regs, n)[pcReg] >= |prog|
    ensures Iterate(prog, pcReg, regs, m) == Iterate(prog, pcReg, regs, n)
  {
    if n < m {
      HaltedStaysHalted(prog, pcReg, regs, n, m - 1);
    }
  }

  /** `seti 5 0 0` with the pc in register 1: one step, then r0 = 5, pc = 1. */
  lemma SingleSetiHaltsAfterOneStep()
    ensures var prog := [Instruction(Seti, 5, 0, 0)];
      var r := Iterate(prog, 1, [0, 0, 0, 0, 0, 0], 1);
      r == [5, 1, 0, 0, 0, 0] && r[1] >= |prog|
  {
  }

  /** `addi 0 1 0` with the pc in register 0: one step leaves the pc at 2. */
  lemma SelfJumpHaltsAfterOneStep()
    ensures var prog := [Instruction(Addi, 0, 1, 0)];
      var r := Iterate(prog, 0, [0, 0, 0, 0, 0, 0], 1);
      r[0] == 2 && r[0] >= |prog|
  {
  }
}
