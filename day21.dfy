/** The profiling variant of the register machine: every step off pc 18
    counts one execution of its instruction, the hot loop at instructions
    18-25 is replaced by direct arithmetic, and a run stops the first time
    the value of register 2 at pc 28 repeats an earlier one. */
module ProfiledMachine {
  import opened Wrappers
  import opened Opcodes
  import opened Machine

  /** The pc at which the shortcut replaces the hot loop. */
  const ShortcutPc: nat := 18
  /** Where the shortcut leaves the program counter. */
  const ShortcutExitPc: nat := 26
  /** The pc at which register 2 is recorded. */
  const ProbePc: nat := 28

  function Max(x: nat, y: nat): nat
  {
    if x >= y then x else y
  }

  // ---------------------------------------------------------------------
  // The hot-loop shortcut.

  /** The bank after the shortcut: `r4` counts up to the least `k >= r4`
      with `(k + 1) * 256 > r5`, `r3` keeps `(k + 1) * 256`, and the pc
      becomes 26. */
  function ShortcutResult(regs: seq<nat>, pcReg: nat): (r: seq<nat>)
    requires |regs| == 6 && pcReg < 6
    ensures |r| == 6
  {
    var k := Max(regs[4], regs[5] / 256);
    regs[3 := (k + 1) * 256][4 := k][pcReg := ShortcutExitPc]
  }

  /** `r4 / 256`-style bound used by the shortcut's exit test. */
  lemma DivBy256(k: nat, x: nat)
    requires k * 256 <= x < (k + 1) * 256
    ensures x / 256 == k
  {
  }

  /** The shortcut's exit test fails for counter value `j`: `(j + 1) * 256`
      does not exceed `r5`. */
  predicate KeepsCounting(j: nat, r5: nat)
  {
    (j + 1) * 256 <= r5
  }

  /** The closed form is the least counter value that passes the exit test. */
  lemma ShortcutCounterIsLeastExit(r4: nat, r5: nat)
    ensures (Max(r4, r5 / 256) + 1) * 256 > r5
    ensures forall j :: r4 <= j < Max(r4, r5 / 256) ==> KeepsCounting(j, r5)
  {
    var q := r5 / 256;
    assert q * 256 <= r5 < (q + 1) * 256;
    forall j | r4 <= j < Max(r4, q)
      ensures KeepsCounting(j, r5)
    {
      assert j + 1 <= q;
    }
  }

  /** The Ruby loop that stands for instructions 18-25, then `pc = 26`. */
  method Shortcut(r: Registers)
    requires r.Valid() && r.regs.Length == 6
    modifies r.regs
    ensures r.regs[..] == ShortcutResult(old(r.regs[..]), r.pcReg)
  {
    ghost var init := r.regs[..];
    while true
      invariant r.regs.Length == 6
      invariant forall i :: 0 <= i < 6 && i != 3 && i != 4 ==> r.regs[i] == init[i]
      invariant init[4] <= r.regs[4]
      invariant forall j :: init[4] <= j < r.regs[4] ==> KeepsCounting(j, init[5])
      decreases init[5] as int + 256 - r.regs[4] * 256
    {
      ghost var r4 := r.regs[4];
      r.Set(3, r.Get(4) + 1);
      r.Set(3, r.Get(3) * 256);
      if r.Get(3) > r.Get(5) {
        break;
      }
      assert KeepsCounting(r4, init[5]);
      r.Set(4, r.Get(4) + 1);
    }
    ghost var k := r.regs[4];
    assert r.regs[3] == (k + 1) * 256 > init[5];
    if k == init[4] {
      assert init[5] / 256 <= init[4];
    } else {
      assert KeepsCounting(k - 1, init[5]);
      DivBy256(k, init[5]);
    }
    assert k == Max(init[4], init[5] / 256);
    r.SetPc(ShortcutExitPc);
  }

  // ---------------------------------------------------------------------
  // One profiled step.

  function StepProfiled(prog: seq<Instruction>, pcReg: nat, regs: seq<nat>): (r: seq<nat>)
    requires |regs| == 6 && pcReg < 6 && ValidProgram(prog, 6) && regs[pcReg] < |prog|
    ensures |r| == 6
  {
    if regs[pcReg] == ShortcutPc then ShortcutResult(regs, pcReg) else Step(prog, pcReg, regs)
  }

  /** `execute_instruction`: at pc 18 the shortcut, which leaves the profile
      alone; elsewhere one count for the instruction, then an ordinary step. */
  method ExecuteProfiled(r: Registers, prog: seq<Instruction>, profile: array<nat>)
    requires r.Valid() && r.regs.Length == 6 && ValidProgram(prog, 6) && r.Pc() < |prog|
    requires profile.Length == |prog| && profile != r.regs
    modifies r.regs, profile
    ensures r.regs[..] == StepProfiled(prog, r.pcReg, old(r.regs[..]))
    ensures var pc := old(r.regs[r.pcReg]);
      profile[..] == if pc == ShortcutPc then old(profile[..]) else old(profile[..])[pc := old(profile[..])[pc] + 1]
  {
    if r.Pc() == ShortcutPc {
      Shortcut(r);
    } else {
      profile[r.Pc()] := profile[r.Pc()] + 1;
      ExecuteInstruction(r, prog);
    }
  }

  // ---------------------------------------------------------------------
  // A run that stops on the first repeated value at pc 28.

  /** The bank after `n` profiled steps (standing still once halted). */
  function IterateProfiled(prog: seq<Instruction>, pcReg: nat, regs: seq<nat>, n: nat): (r: seq<nat>)
    requires |regs| == 6 && pcReg < 6 && ValidProgram(prog, 6)
    ensures |r| == 6
  {
    if n == 0 then regs
    else
      var p := IterateProfiled(prog, pcReg, regs, n - 1);
      if p[pcReg] >= |prog| then p else StepProfiled(prog, pcReg, p)
  }

  /** The values of register 2 in those of the first `n` states whose pc is 28. */
  function ProbesAlong(prog: seq<Instruction>, pcReg: nat, regs: seq<nat>, n: nat): seq<nat>
    requires |regs| == 6 && pcReg < 6 && ValidProgram(prog, 6)
  {
    if n == 0 then []
    else
      var p := IterateProfiled(prog, pcReg, regs, n - 1);
      ProbesAlong(prog, pcReg, regs, n - 1) + (if p[pcReg] == ProbePc && p[pcReg] < |prog| then [p[2]] else [])
  }

  /** How often the first `n` states executed the instruction at `pc` the
      ordinary way (the shortcut at pc 18 is never counted). */
  function Visits(prog: seq<Instruction>, pcReg: nat, regs: seq<nat>, n: nat, pc: nat): nat
    requires |regs| == 6 && pcReg < 6 && ValidProgram(prog, 6)
  {
    if n == 0 then 0
    else
      var p := IterateProfiled(prog, pcReg, regs, n - 1);
      Visits(prog, pcReg, regs, n - 1, pc) +
        (if p[pcReg] == pc && pc < |prog| && pc != ShortcutPc then 1 else 0)
  }

  /** Scans `vals` and returns the last value that was new before the first
      value that repeats an earlier one. */
  function LastNewBeforeRepeat(vals: seq<nat>): Option<nat>
  {
    ScanForRepeat(vals, {}, None)
  }

  function ScanForRepeat(vals: seq<nat>, seen: set<nat>, last: Option<nat>): Option<nat>
  {
    if vals == [] || vals[0] in seen then last
    else ScanForRepeat(vals[1..], seen + {vals[0]}, Some(vals[0]))
  }

  lemma {:induction false} ScanStopsAtRepeat(p: seq<nat>, x: nat, seen: set<nat>, last: Option<nat>)
    requires Distinct(p) && (forall v :: v in p ==> v !in seen)
    requires x in p || x in seen
    ensures ScanForRepeat(p + [x], seen, last) == if p == [] then last else Some(p[|p| - 1])
    decreases |p|
  {
    if p != [] {
      assert (p + [x])[0] == p[0] && (p + [x])[1..] == p[1..] + [x];
      if x == p[0] {
        assert x in seen + {p[0]};
      } else {
        assert x in p[1..] || x in seen;
      }
      ScanStopsAtRepeat(p[1..], x, seen + {p[0]}, Some(p[0]));
    }
  }

  lemma DistinctAppend(p: seq<nat>, x: nat)
    requires Distinct(p) && x !in p
    ensures Distinct(p + [x])
  {
  }

  /** When the probes so far are distinct and the next one repeats, the
      run's answer is the last probe. */
  lemma LastBeforeFirstRepeat(p: seq<nat>, x: nat)
    requires Distinct(p) && x in p
    ensures LastNewBeforeRepeat(p + [x]) == Some(p[|p| - 1])
  {
    ScanStopsAtRepeat(p, x, {}, None);
  }

  /** The values 5, 9, 5 give 9. */
  lemma FiveNineFiveGivesNine()
    ensures LastNewBeforeRepeat([5, 9, 5]) == Some(9)
  {
    assert [5, 9, 5][1..] == [9, 5] && [9, 5][1..] == [5] && [5][1..] == [];
    assert ScanForRepeat([5], {5, 9}, Some(9)) == Some(9);
    assert ScanForRepeat([9, 5], {5}, Some(5)) == Some(9);
    assert ScanForRepeat([5, 9, 5], {}, None) == Some(9);
  }

  datatype Stop = PcOutOfRange | RepeatedProbe | BudgetExhausted

  /** One more profiled step extends the trace, the probe list and the
      visit counts by what the current state contributes. */
  lemma AdvanceOne(prog: seq<Instruction>, pcReg: nat, init: seq<nat>, n: nat)
    requires |init| == 6 && pcReg < 6 && ValidProgram(prog, 6)
    requires IterateProfiled(prog, pcReg, init, n)[pcReg] < |prog|
    ensures var s := IterateProfiled(prog, pcReg, init, n);
      && IterateProfiled(prog, pcReg, init, n + 1) == StepProfiled(prog, pcReg, s)
      && ProbesAlong(prog, pcReg, init, n + 1) ==
           ProbesAlong(prog, pcReg, init, n) + (if s[pcReg] == ProbePc then [s[2]] else [])
      && ProfileAfter(prog, pcReg, init, n + 1) ==
           (var p := ProfileAfter(prog, pcReg, init, n);
            if s[pcReg] == ShortcutPc then p else p[s[pcReg] := p[s[pcReg]] + 1])
  {
  }

  /** The profile array after `n` profiled steps: each step off pc 18
      adds one at its pc. */
  function ProfileAfter(prog: seq<Instruction>, pcReg: nat, init: seq<nat>, n: nat): (p: seq<nat>)
    requires |init| == 6 && pcReg < 6 && ValidProgram(prog, 6)
    ensures |p| == |prog|
  {
    if n == 0 then seq(|prog|, _ => 0)
    else
      var p := ProfileAfter(prog, pcReg, init, n - 1);
      var pc := IterateProfiled(prog, pcReg, init, n - 1)[pcReg];
      if pc >= |prog| || pc == ShortcutPc then p else p[pc := p[pc] + 1]
  }

  /** Entry `pc` of the profile is the number of ordinary executions at `pc`. */
  lemma {:induction false} ProfileCountsVisits(prog: seq<Instruction>, pcReg: nat, init: seq<nat>, n: nat, pc: nat)
    requires |init| == 6 && pcReg < 6 && ValidProgram(prog, 6) && pc < |prog|
    ensures ProfileAfter(prog, pcReg, init, n)[pc] == Visits(prog, pcReg, init, n, pc)
  {
    if n > 0 {
      ProfileCountsVisits(prog, pcReg, init, n - 1, pc);
    }
  }

  /** One iteration's `execute_instruction`, stated against the trace. */
  method ProfiledStep(r: Registers, prog: seq<Instruction>, profile: array<nat>, ghost init: seq<nat>, ghost n: nat)
    requires |init| == 6 && r.pcReg < 6 && ValidProgram(prog, 6)
    requires r.Valid() && r.regs.Length == 6 && profile.Length == |prog| && profile != r.regs
    requires r.regs[..] == IterateProfiled(prog, r.pcReg, init, n) && r.Pc() < |prog|
    requires profile[..] == ProfileAfter(prog, r.pcReg, init, n)
    modifies r.regs, profile
    ensures r.regs[..] == IterateProfiled(prog, r.pcReg, init, n + 1)
    ensures profile[..] == ProfileAfter(prog, r.pcReg, init, n + 1)
  {
    AdvanceOne(prog, r.pcReg, init, n);
    ExecuteProfiled(r, prog, profile);
  }

  /** What the run loop keeps about the halting numbers: the list of
      values seen at pc 28 has no repeats, `seen` holds exactly those
      values, and `last` is the latest of them. */
  ghost predicate ProbeBook(probes: seq<nat>, seen: set<nat>, last: Option<nat>)
  {
    Distinct(probes) && (forall v :: v in seen <==> v in probes) &&
    last == (if probes == [] then None else Some(probes[|probes| - 1]))
  }

  /** The check at pc 28: a value of register 2 already seen ends the run;
      a new one is recorded as the latest halting number. */
  method Probe(r: Registers, prog: seq<Instruction>, ghost init: seq<nat>, ghost n: nat,
               seen: set<nat>, last: Option<nat>, ghost probes: seq<nat>)
    returns (repeated: bool, seen': set<nat>, last': Option<nat>, ghost probes': seq<nat>)
    requires |init| == 6 && r.pcReg < 6 && ValidProgram(prog, 6)
    requires r.Valid() && r.regs.Length == 6
    requires r.regs[..] == IterateProfiled(prog, r.pcReg, init, n) && r.Pc() < |prog|
    requires probes == ProbesAlong(prog, r.pcReg, init, n)
    requires ProbeBook(probes, seen, last)
    ensures repeated ==> probes' == probes && seen' == seen && last' == last
    ensures repeated ==> (r.Pc() == ProbePc && r.regs[2] in probes &&
      last == LastNewBeforeRepeat(probes + [r.regs[2]]))
    ensures !repeated ==> probes' == ProbesAlong(prog, r.pcReg, init, n + 1)
    ensures !repeated ==> ProbeBook(probes', seen', last')
    ensures !repeated ==> probes' == probes + (if r.Pc() == ProbePc then [r.regs[2]] else [])
  {
    AdvanceOne(prog, r.pcReg, init, n);
    repeated, seen', last', probes' := false, seen, last, probes;
    if r.Pc() == ProbePc {
      var h := r.Get(2);
      if h in seen {
        LastBeforeFirstRepeat(probes, h);
        return true, seen, last, probes;
      }
      DistinctAppend(probes, h);
      seen', last', probes' := seen + {h}, Some(h), probes + [h];
    }
  }

  /** One turn of the loop of `run`: the probe at pc 28, then, unless it
      found a repeat, one profiled step. */
  method ProbeAndStep(r: Registers, prog: seq<Instruction>, prof: array<nat>, ghost init: seq<nat>, n: nat,
                      seen: set<nat>, last: Option<nat>, ghost probes: seq<nat>)
    returns (repeated: bool, seen': set<nat>, last': Option<nat>, ghost probes': seq<nat>, n': nat)
    requires |init| == 6 && r.pcReg < 6 && ValidProgram(prog, 6)
    requires r.Valid() && r.regs.Length == 6 && prof.Length == |prog| && prof != r.regs
    requires r.regs[..] == IterateProfiled(prog, r.pcReg, init, n) && r.Pc() < |prog|
    requires prof[..] == ProfileAfter(prog, r.pcReg, init, n)
    requires probes == ProbesAlong(prog, r.pcReg, init, n) && ProbeBook(probes, seen, last)
    modifies r.regs, prof
    ensures n' == if repeated then n else n + 1
    ensures r.regs[..] == IterateProfiled(prog, r.pcReg, init, n')
    ensures prof[..] == ProfileAfter(prog, r.pcReg, init, n')
    ensures probes' == ProbesAlong(prog, r.pcReg, init, n') && ProbeBook(probes', seen', last')
    ensures repeated ==> r.Pc() == ProbePc && r.regs[2] in probes' && last' == LastNewBeforeRepeat(probes' + [r.regs[2]])
  {
    repeated, seen', last', probes' := Probe(r, prog, init, n, seen, last, probes);
    n' := n;
    if !repeated {
      ProfiledStep(r, prog, prof, init, n);
      n' := n + 1;
    }
  }

  /** The loop of `run`, on a fresh register bank `init` and a zeroed
      profile. */
  method ProbeLoop(r: Registers, prog: seq<Instruction>, prof: array<nat>, fuel: nat, ghost init: seq<nat>)
    returns (count: nat, last: Option<nat>, repeated: bool, ghost probes: seq<nat>)
    requires |init| == 6 && r.pcReg < 6 && ValidProgram(prog, 6)
    requires r.Valid() && r.regs.Length == 6 && prof.Length == |prog| && prof != r.regs
    requires r.regs[..] == init && prof[..] == ProfileAfter(prog, r.pcReg, init, 0)
    modifies r.regs, prof
    ensures count <= fuel
    ensures r.regs[..] == IterateProfiled(prog, r.pcReg, init, count)
    ensures probes == ProbesAlong(prog, r.pcReg, init, count)
    ensures Distinct(probes) && last == (if probes == [] then None else Some(probes[|probes| - 1]))
    ensures repeated ==> r.Pc() == ProbePc && r.regs[2] in probes
    ensures repeated ==> last == LastNewBeforeRepeat(probes + [r.regs[2]])
    ensures !repeated && r.Pc() < |prog| ==> count == fuel
    ensures prof[..] == ProfileAfter(prog, r.pcReg, init, count)
  {
    count := 0;
    last := None;
    var seen: set<nat> := {};
    repeated := false;
    probes := [];
    while r.Pc() < |prog| && count < fuel && !repeated
      invariant r.Valid() && r.regs.Length == 6 && prof.Length == |prog| && prof != r.regs
      invariant count <= fuel
      invariant r.regs[..] == IterateProfiled(prog, r.pcReg, init, count)
      invariant probes == ProbesAlong(prog, r.pcReg, init, count)
      invariant ProbeBook(probes, seen, last)
      invariant repeated ==> r.Pc() == ProbePc && r.regs[2] in probes
      invariant repeated ==> last == LastNewBeforeRepeat(probes + [r.regs[2]])
      invariant prof[..] == ProfileAfter(prog, r.pcReg, init, count)
      decreases fuel - count, if repeated then 0 else 1
    {
      repeated, seen, last, probes, count := ProbeAndStep(r, prog, prof, init, count, seen, last, probes);
    }
  }

  /** `run`: returns the instruction count and the last new value of
      register 2 at pc 28; `fuel` bounds the loop, which need not end. */
  method RunWithProbe(r0: nat, pcReg: nat, prog: seq<Instruction>, fuel: nat)
    returns (count: nat, last: Option<nat>, ghost probes: seq<nat>, ghost stop: Stop, ghost profile: seq<nat>)
    requires pcReg < 6 && ValidProgram(prog, 6)
    ensures var init := [r0, 0, 0, 0, 0, 0];
      var s := IterateProfiled(prog, pcReg, init, count);
      && probes == ProbesAlong(prog, pcReg, init, count)
      && Distinct(probes)
      && last == (if probes == [] then None else Some(probes[|probes| - 1]))
      && (stop == PcOutOfRange <==> s[pcReg] >= |prog|)
      && (stop == RepeatedProbe ==> s[pcReg] == ProbePc && s[2] in probes)
      && (stop == RepeatedProbe ==> last == LastNewBeforeRepeat(probes + [s[2]]))
      && (stop == BudgetExhausted ==> count == fuel)
      && profile == ProfileAfter(prog, pcReg, init, count)
  {
    var init := [r0, 0, 0, 0, 0, 0];
    var prof := new nat[|prog|](_ => 0);
    assert prof[..] == ProfileAfter(prog, pcReg, init, 0);
    var r := new Registers(init, pcReg);
    var repeated;
    count, last, repeated, probes := ProbeLoop(r, prog, prof, fuel, init);
    stop := if r.Pc() >= |prog| then PcOutOfRange else if repeated then RepeatedProbe else BudgetExhausted;
    profile := prof[..];
  }

  // ---------------------------------------------------------------------
  // The shortcut against the instructions it replaces.

  /** Instructions 18-25 of the puzzle program as the shortcut's comments
      list them (pc in register 1); `seti` ignores its `b`. */
  predicate HotLoopAt18(prog: seq<Instruction>)
  {
    |prog| > 25 &&
    prog[18] == Instruction(Addi, 4, 1, 3) &&
    prog[19] == Instruction(Muli, 3, 256, 3) &&
    prog[20] == Instruction(Gtrr, 3, 5, 3) &&
    prog[21] == Instruction(Addr, 3, 1, 1) &&
    prog[22] == Instruction(Addi, 1, 1, 1) &&
    prog[23].op == Seti && prog[23].a == 25 && prog[23].c == 1 &&
    prog[24] == Instruction(Addi, 4, 1, 4) &&
    prog[25].op == Seti && prog[25].a == 17 && prog[25].c == 1
  }

  /** Instructions 18-22 and 23 when `gtrr` finds `(r4 + 1) * 256 > r5`:
      five steps to pc 26 with `r3 = 1`. */
  lemma HotLoopExits(prog: seq<Instruction>, regs: seq<nat>)
    requires ValidProgram(prog, 6) && HotLoopAt18(prog)
    requires |regs| == 6 && regs[1] == ShortcutPc && (regs[4] + 1) * 256 > regs[5]
    ensures Iterate(prog, 1, regs, 5) == regs[3 := 1][1 := ShortcutExitPc]
  {
    var s1 := Step(prog, 1, regs);
    assert s1 == regs[3 := regs[4] + 1][1 := 19];
    var s2 := Step(prog, 1, s1);
    assert s2 == regs[3 := (regs[4] + 1) * 256][1 := 20];
    var s3 := Step(prog, 1, s2);
    assert s3 == regs[3 := 1][1 := 21];
    var s4 := Step(prog, 1, s3);
    assert s4 == regs[3 := 1][1 := 23];
    var s5 := Step(prog, 1, s4);
    assert s5 == regs[3 := 1][1 := 26];
    IterateFirstStep(prog, 1, regs, 4);
    IterateFirstStep(prog, 1, s1, 3);
    IterateFirstStep(prog, 1, s2, 2);
    IterateFirstStep(prog, 1, s3, 1);
    IterateFirstStep(prog, 1, s4, 0);
  }

  /** One round of instructions 18-25 when `gtrr` finds `(r4 + 1) * 256 <= r5`:
      seven steps back to pc 18 with `r3 = 0` and `r4` one larger. */
  lemma HotLoopRepeats(prog: seq<Instruction>, regs: seq<nat>)
    requires ValidProgram(prog, 6) && HotLoopAt18(prog)
    requires |regs| == 6 && regs[1] == ShortcutPc && (regs[4] + 1) * 256 <= regs[5]
    ensures Iterate(prog, 1, regs, 7) == regs[3 := 0][4 := regs[4] + 1][1 := ShortcutPc]
  {
    var s1 := Step(prog, 1, regs);
    assert s1 == regs[3 := regs[4] + 1][1 := 19];
    var s2 := Step(prog, 1, s1);
    assert s2 == regs[3 := (regs[4] + 1) * 256][1 := 20];
    var s3 := Step(prog, 1, s2);
    assert s3 == regs[3 := 0][1 := 21];
    var s4 := Step(prog, 1, s3);
    assert s4 == regs[3 := 0][1 := 22];
    var s5 := Step(prog, 1, s4);
    assert s5 == regs[3 := 0][1 := 24];
    var s6 := Step(prog, 1, s5);
    assert s6 == regs[3 := 0][4 := regs[4] + 1][1 := 25];
    var s7 := Step(prog, 1, s6);
    assert s7 == regs[3 := 0][4 := regs[4] + 1][1 := 18];
    IterateFirstStep(prog, 1, regs, 6);
    IterateFirstStep(prog, 1, s1, 5);
    IterateFirstStep(prog, 1, s2, 4);
    IterateFirstStep(prog, 1, s3, 3);
    IterateFirstStep(prog, 1, s4, 2);
    IterateFirstStep(prog, 1, s5, 1);
    IterateFirstStep(prog, 1, s6, 0);
  }

  /** When the first exit test succeeds, the shortcut's counter stays put. */
  lemma ExitMatchesShortcut(regs: seq<nat>)
    requires |regs| == 6 && regs[1] == ShortcutPc && (regs[4] + 1) * 256 > regs[5]
    ensures Max(regs[4], regs[5] / 256) == regs[4]
    ensures regs[3 := 1][1 := ShortcutExitPc] == ShortcutResult(regs, 1)[3 := 1]
  {
    ShortcutCounterIsLeastExit(regs[4], regs[5]);
    assert regs[5] / 256 <= regs[4];
  }

  /** A round of the hot loop leaves the shortcut's result unchanged. */
  lemma RoundKeepsTarget(regs: seq<nat>)
    requires |regs| == 6 && (regs[4] + 1) * 256 <= regs[5]
    ensures var s7 := regs[3 := 0][4 := regs[4] + 1][1 := ShortcutPc];
      Max(s7[4], s7[5] / 256) == Max(regs[4], regs[5] / 256) &&
      ShortcutResult(s7, 1) == ShortcutResult(regs, 1)
  {
    assert regs[4] + 1 <= regs[5] / 256;
  }

  lemma RoundThenRest(prog: seq<Instruction>, regs: seq<nat>, rest: nat)
    requires ValidProgram(prog, 6) && HotLoopAt18(prog)
    requires |regs| == 6 && regs[1] == ShortcutPc && (regs[4] + 1) * 256 <= regs[5]
    requires var s7 := regs[3 := 0][4 := regs[4] + 1][1 := ShortcutPc];
      Iterate(prog, 1, s7, rest) == ShortcutResult(s7, 1)[3 := 1]
    ensures Iterate(prog, 1, regs, 7 + rest) == ShortcutResult(regs, 1)[3 := 1]
  {
    HotLoopRepeats(prog, regs);
    RoundKeepsTarget(regs);
    IterateAdd(prog, 1, regs, 7, rest);
  }

  /** Executing instructions 18-25 one by one from pc 18 reaches pc 26 with
      exactly the registers the shortcut produces, except that `r3` holds
      the 1 written by `gtrr 3 5 3` where the shortcut leaves `(k + 1) * 256`. */
  lemma {:induction false} ShortcutAgreesWithHotLoop(prog: seq<Instruction>, regs: seq<nat>)
    requires ValidProgram(prog, 6) && HotLoopAt18(prog)
    requires |regs| == 6 && regs[1] == ShortcutPc
    ensures var k := Max(regs[4], regs[5] / 256);
      Iterate(prog, 1, regs, 7 * (k - regs[4]) + 5) == ShortcutResult(regs, 1)[3 := 1]
    decreases Max(regs[4], regs[5] / 256) - regs[4]
  {
    var k := Max(regs[4], regs[5] / 256);
    var target := ShortcutResult(regs, 1)[3 := 1];
    if (regs[4] + 1) * 256 > regs[5] {
      HotLoopExits(prog, regs);
      ExitMatchesShortcut(regs);
    } else {
      var s7 := regs[3 := 0][4 := regs[4] + 1][1 := ShortcutPc];
      RoundKeepsTarget(regs);
      var rest := 7 * (k - s7[4]) + 5;
      ShortcutAgreesWithHotLoop(prog, s7);
      RoundThenRest(prog, regs, rest);
      assert 7 * (k - regs[4]) + 5 == 7 + rest;
    }
  }

  // ---------------------------------------------------------------------
  // Jump classification of the program listing.

  /** The annotation `print_program` appends to an instruction. */
  datatype Annotation =
    | RelativeJumpTo(target: nat)
    | RelativeJumpByRegister(reg: nat)
    | AbsoluteJump
    | AbsoluteJumpSteps(steps: nat)
    | AbsoluteJumpFromRegister(reg: nat)
    | JumpTo(target: nat)
    | ModifiesPc
    | StoreLiteral(value: nat, reg: nat)
    | MultiplyRegisters(x: nat, y: nat, into: nat)
    | AddRegisters(x: nat, y: nat, into: nat)
    | SetIfEqual(x: nat, y: nat, into: nat)
    | AndLiteral(reg: nat, literal: nat)
    | OrLiteral(reg: nat, literal: nat)
    | NoGloss

  /** The gloss of an instruction that does not write the pc. */
  function Gloss(ins: Instruction): Annotation
  {
    match ins.op
    case Seti => StoreLiteral(ins.a, ins.c)
    case Mulr => MultiplyRegisters(ins.a, ins.b, ins.c)
    case Addr => AddRegisters(ins.a, ins.b, ins.c)
    case Eqrr => SetIfEqual(ins.a, ins.b, ins.c)
    case Bani => AndLiteral(ins.a, ins.b)
    case Bori => OrLiteral(ins.a, ins.b)
    case _ => NoGloss
  }

  /** The classification as the listing code writes it: an `addi` that
      names the pc in either operand is called a relative jump. */
  function AnnotateAsWritten(ins: Instruction, line: nat, pcReg: nat): Annotation
  {
    if ins.c == pcReg then
      if ins.op == Addi && (ins.a == pcReg || ins.b == pcReg) then
        RelativeJumpTo(line + (if ins.a == pcReg then ins.b else ins.a) + 1)
      else if ins.op == Addr then RelativeJumpByRegister(if ins.a == pcReg then ins.b else ins.a)
      else if ins.op == Setr then (if ins.a == pcReg then AbsoluteJump else AbsoluteJumpSteps(ins.b))
      else if ins.op == Seti then JumpTo(ins.a + 1)
      else ModifiesPc
    else Gloss(ins)
  }

  /** `addi a pc pc` with `a != pc` is labelled a jump to `line + a + 1`,
      yet it adds the literal `pc` to register `a`: with the pc in register 1,
      `addi 2 1 1` on line 0 and `r2 = 5`, the label says 3 and the machine
      goes to 7. */
  lemma AnnotateAsWrittenMislabelsAddi()
    ensures var prog := [Instruction(Addi, 2, 1, 1)];
      var regs := [0, 0, 5, 0, 0, 0];
      AnnotateAsWritten(prog[0], 0, 1) == RelativeJumpTo(3) &&
      Step(prog, 1, regs)[1] == 7
  {
  }

  /** `setr a _ pc` with `a != pc` is labelled an absolute jump of `b`
      steps, yet `setr` never reads `b`: with the pc in register 1,
      `setr 2 4 1` and `setr 2 0 1` on line 0 with `r2 = 5` are labelled 4
      and 0 steps, and both go to 6. */
  lemma AnnotateAsWrittenMislabelsSetr()
    ensures var regs := [0, 0, 5, 0, 0, 0];
      AnnotateAsWritten(Instruction(Setr, 2, 4, 1), 0, 1) == AbsoluteJumpSteps(4) &&
      AnnotateAsWritten(Instruction(Setr, 2, 0, 1), 0, 1) == AbsoluteJumpSteps(0) &&
      Step([Instruction(Setr, 2, 4, 1)], 1, regs)[1] == 6 &&
      Step([Instruction(Setr, 2, 0, 1)], 1, regs)[1] == 6
  {
  }

  /** The classification with `addi` a relative jump only when its register
      operand `a` is the pc, and `setr` into the pc a jump to just after the
      value of register `a`. */
  function Annotate(ins: Instruction, line: nat, pcReg: nat): Annotation
  {
    if ins.c == pcReg then
      if ins.op == Addi && ins.a == pcReg then RelativeJumpTo(line + ins.b + 1)
      else if ins.op == Addr then RelativeJumpByRegister(if ins.a == pcReg then ins.b else ins.a)
      else if ins.op == Setr then (if ins.a == pcReg then AbsoluteJump else AbsoluteJumpFromRegister(ins.a))
      else if ins.op == Seti then JumpTo(ins.a + 1)
      else ModifiesPc
    else Gloss(ins)
  }

  /** Every jump target the corrected listing prints is where the machine
      goes next; every instruction without a jump annotation leaves the pc
      to advance by one. */
  lemma AnnotatedTargetsAreNextPc(prog: seq<Instruction>, pcReg: nat, regs: seq<nat>)
    requires pcReg < |regs| && ValidProgram(prog, |regs|) && regs[pcReg] < |prog|
    ensures var line := regs[pcReg];
      var next := Step(prog, pcReg, regs)[pcReg];
      match Annotate(prog[line], line, pcReg)
      case RelativeJumpTo(t) => next == t
      case JumpTo(t) => next == t
      case AbsoluteJump => next == line + 1
      case AbsoluteJumpFromRegister(r) => r < |regs| && next == regs[r] + 1
      case RelativeJumpByRegister(r) =>
        (prog[line].a == pcReg || prog[line].b == pcReg) ==>
          r < |regs| && next == line + regs[r] + 1
      case ModifiesPc => true
      case AbsoluteJumpSteps(_) => false
      case _ => next == line + 1
  {
    var line := regs[pcReg];
    StepNextPc(prog, pcReg, regs);
  }
}
