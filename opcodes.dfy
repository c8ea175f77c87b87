/** The instruction set shared by the three register-machine scripts: sixteen
    operations, each writing register `c` from registers and/or literal
    operands `a` and `b`.

    Register values are natural numbers: every program, sample and initial
    register bank is read with `\d+`, and each of the sixteen operations maps
    naturals to naturals, so a negative register value never arises. */
module Opcodes {

  datatype Op =
    | Addr | Addi | Mulr | Muli | Banr | Bani | Borr | Bori
    | Setr | Seti | Gtir | Gtri | Gtrr | Eqir | Eqri | Eqrr

  /** The table in the order the scripts list it. */
  const AllOps: seq<Op> :=
    [Addr, Addi, Mulr, Muli, Banr, Bani, Borr, Bori,
     Setr, Seti, Gtir, Gtri, Gtrr, Eqir, Eqri, Eqrr]

  lemma AllOpsListsEveryOpOnce(op: Op)
    ensures |AllOps| == 16
    ensures op in AllOps
    ensures forall i, j :: 0 <= i < j < |AllOps| ==> AllOps[i] != AllOps[j]
  {
  }

  // ---------------------------------------------------------------------
  // Bitwise AND and OR on naturals, one binary digit at a time.

  function BitAnd(x: nat, y: nat): (r: nat)
    ensures r <= x && r <= y
  {
    if x == 0 || y == 0 then 0
    else 2 * BitAnd(x / 2, y / 2) + (if x % 2 == 1 && y % 2 == 1 then 1 else 0)
  }

  function BitOr(x: nat, y: nat): (r: nat)
    ensures x <= r && y <= r && r <= x + y
  {
    if x == 0 then y
    else if y == 0 then x
    else 2 * BitOr(x / 2, y / 2) + (if x % 2 == 1 || y % 2 == 1 then 1 else 0)
  }

  lemma {:induction false} BitAndCommutes(x: nat, y: nat)
    ensures BitAnd(x, y) == BitAnd(y, x)
  {
    if x != 0 && y != 0 {
      BitAndCommutes(x / 2, y / 2);
    }
  }

  lemma {:induction false} BitOrCommutes(x: nat, y: nat)
    ensures BitOr(x, y) == BitOr(y, x)
  {
    if x != 0 && y != 0 {
      BitOrCommutes(x / 2, y / 2);
    }
  }

  /** AND and OR of a value with itself give the value back. */
  lemma {:induction false} BitOpsIdempotent(x: nat)
    ensures BitAnd(x, x) == x && BitOr(x, x) == x
  {
    if x != 0 {
      BitOpsIdempotent(x / 2);
    }
  }

  /** Absorption: `x & (x | y) == x`, a law of the bitwise lattice. */
  lemma {:induction false} BitAndAbsorbsOr(x: nat, y: nat)
    ensures BitAnd(x, BitOr(x, y)) == x
  {
    if x != 0 && y != 0 {
      BitAndAbsorbsOr(x / 2, y / 2);
      var o := BitOr(x / 2, y / 2);
      var bit := if x % 2 == 1 || y % 2 == 1 then 1 else 0;
      assert BitOr(x, y) == 2 * o + bit;
      assert (2 * o + bit) / 2 == o && (2 * o + bit) % 2 == bit;
    } else if x != 0 {
      BitOpsIdempotent(x);
    }
  }

  // ---------------------------------------------------------------------
  // Operand kinds and the value each operation writes.

  /** The operation reads register `a` (rather than taking `a` as a literal). */
  predicate ReadsA(op: Op)
  {
    !(op == Seti || op == Gtir || op == Eqir)
  }

  /** The operation reads register `b`. */
  predicate ReadsB(op: Op)
  {
    op == Addr || op == Mulr || op == Banr || op == Borr ||
    op == Gtir || op == Gtrr || op == Eqir || op == Eqrr
  }

  predicate IsComparison(op: Op)
  {
    op == Gtir || op == Gtri || op == Gtrr || op == Eqir || op == Eqri || op == Eqrr
  }

  /** Every register the operation names exists in a bank of `n` registers.
      The scripts do not check this: Ruby reads `nil` for a missing register
      and raises, or grows the bank on a write. */
  predicate WellFormed(op: Op, n: nat, a: nat, b: nat, c: nat)
  {
    c < n && (ReadsA(op) ==> a < n) && (ReadsB(op) ==> b < n)
  }

  /** The value `op` writes into register `c`. */
  function Value(op: Op, regs: seq<nat>, a: nat, b: nat): (v: nat)
    requires ReadsA(op) ==> a < |regs|
    requires ReadsB(op) ==> b < |regs|
    ensures IsComparison(op) ==> v <= 1
  {
    match op
    case Addr => regs[a] + regs[b]
    case Addi => regs[a] + b
    case Mulr => regs[a] * regs[b]
    case Muli => regs[a] * b
    case Banr => BitAnd(regs[a], regs[b])
    case Bani => BitAnd(regs[a], b)
    case Borr => BitOr(regs[a], regs[b])
    case Bori => BitOr(regs[a], b)
    case Setr => regs[a]
    case Seti => a
    case Gtir => if a > regs[b] then 1 else 0
    case Gtri => if regs[a] > b then 1 else 0
    case Gtrr => if regs[a] > regs[b] then 1 else 0
    case Eqir => if a == regs[b] then 1 else 0
    case Eqri => if regs[a] == b then 1 else 0
    case Eqrr => if regs[a] == regs[b] then 1 else 0
  }

  /** The register bank after executing `op a b c`. */
  function Apply(op: Op, regs: seq<nat>, a: nat, b: nat, c: nat): seq<nat>
    requires WellFormed(op, |regs|, a, b, c)
  {
    regs[c := Value(op, regs, a, b)]
  }

  /** One opcode lambda: it overwrites `regs[c]` in place. */
  method Exec(op: Op, regs: array<nat>, a: nat, b: nat, c: nat)
    requires WellFormed(op, regs.Length, a, b, c)
    modifies regs
    ensures regs[..] == Apply(op, old(regs[..]), a, b, c)
  {
    var v: nat;
    match op {
      case Addr => v := regs[a] + regs[b];
      case Addi => v := regs[a] + b;
      case Mulr => v := regs[a] * regs[b];
      case Muli => v := regs[a] * b;
      case Banr => v := BitAnd(regs[a], regs[b]);
      case Bani => v := BitAnd(regs[a], b);
      case Borr => v := BitOr(regs[a], regs[b]);
      case Bori => v := BitOr(regs[a], b);
      case Setr => v := regs[a];
      case Seti => v := a;
      case Gtir => v := if a > regs[b] then 1 else 0;
      case Gtri => v := if regs[a] > b then 1 else 0;
      case Gtrr => v := if regs[a] > regs[b] then 1 else 0;
      case Eqir => v := if a == regs[b] then 1 else 0;
      case Eqri => v := if regs[a] == b then 1 else 0;
      case Eqrr => v := if regs[a] == regs[b] then 1 else 0;
    }
    regs[c] := v;
  }

  // ---------------------------------------------------------------------
  // Properties of the table.

  /** Frame condition: only register `c` changes, and the bank keeps its size. */
  lemma ApplyWritesOnlyC(op: Op, regs: seq<nat>, a: nat, b: nat, c: nat, i: nat)
    requires WellFormed(op, |regs|, a, b, c)
    ensures |Apply(op, regs, a, b, c)| == |regs|
    ensures i < |regs| && i != c ==> Apply(op, regs, a, b, c)[i] == regs[i]
  {
  }

  /** The six comparisons write only 0 or 1. */
  lemma ComparisonsWriteBoolean(op: Op, regs: seq<nat>, a: nat, b: nat, c: nat)
    requires WellFormed(op, |regs|, a, b, c) && IsComparison(op)
    ensures Apply(op, regs, a, b, c)[c] in {0, 1}
  {
  }

  /** `setr` and `seti` ignore operand `b`. */
  lemma SetIgnoresB(op: Op, regs: seq<nat>, a: nat, b1: nat, b2: nat, c: nat)
    requires op == Setr || op == Seti
    requires WellFormed(op, |regs|, a, b1, c)
    ensures Apply(op, regs, a, b1, c) == Apply(op, regs, a, b2, c)
  {
  }

  /** Register and immediate forms agree when the literal equals the register. */
  lemma RegisterAndImmediateFormsAgree(regs: seq<nat>, a: nat, b: nat, c: nat, k: nat)
    requires a < |regs| && b < |regs| && c < |regs| && regs[b] == k
    ensures Apply(Addr, regs, a, b, c) == Apply(Addi, regs, a, k, c)
    ensures Apply(Mulr, regs, a, b, c) == Apply(Muli, regs, a, k, c)
    ensures Apply(Banr, regs, a, b, c) == Apply(Bani, regs, a, k, c)
    ensures Apply(Borr, regs, a, b, c) == Apply(Bori, regs, a, k, c)
    ensures Apply(Gtrr, regs, a, b, c) == Apply(Gtri, regs, a, k, c)
    ensures Apply(Eqrr, regs, a, b, c) == Apply(Eqri, regs, a, k, c)
  {
  }

  /** `gtrr` writes 1 exactly when `regs[a] > regs[b]`, equal values included. */
  lemma GtrrIff(regs: seq<nat>, a: nat, b: nat, c: nat)
    requires a < |regs| && b < |regs| && c < |regs|
    ensures Apply(Gtrr, regs, a, b, c)[c] == 1 <==> regs[a] > regs[b]
    ensures Apply(Gtrr, regs, a, b, c)[c] == 0 <==> regs[a] <= regs[b]
  {
  }
}
