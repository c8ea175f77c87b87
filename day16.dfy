/** Opcode discovery: samples record a four-register bank before and after
    one instruction with a numeric opcode; the resolver works out which of
    the sixteen operations each number stands for, and the test program is
    then run straight through on four registers. */
module OpcodeResolver {
  import opened Wrappers
  import opened Opcodes

  /** An instruction as the samples and the test program write it. */
  datatype NumberedInstruction = NumberedInstruction(opcodeNr: nat, a: nat, b: nat, c: nat)

  datatype Sample = Sample(before: seq<nat>, instruction: NumberedInstruction, after: seq<nat>)

  const RegisterCount: nat := 4
  const OpcodeCount: nat := 16

  /** Four registers before and after, and register operands `a` and `b`
      that exist (Ruby would raise on a missing register read by every
      register-register operation). */
  predicate WellFormedSample(s: Sample)
  {
    |s.before| == RegisterCount && |s.after| == RegisterCount &&
    s.instruction.a < RegisterCount && s.instruction.b < RegisterCount
  }

  predicate WellFormedSamples(samples: seq<Sample>)
  {
    forall s :: s in samples ==> WellFormedSample(s)
  }

  /** A well-formed sample whose opcode number is a slot of the table of
      sixteen. */
  predicate ValidSample(s: Sample)
  {
    WellFormedSample(s) && s.instruction.opcodeNr < OpcodeCount
  }

  predicate ValidSamples(samples: seq<Sample>)
  {
    WellFormedSamples(samples) && forall s :: s in samples ==> ValidSample(s)
  }

  /** Running `op` on `before` gives exactly `after`. A target register
      beyond the bank makes Ruby grow the clone, which then differs from
      `after`. */
  predicate Matches(s: Sample, op: Op)
    requires WellFormedSample(s)
  {
    var ins := s.instruction;
    ins.c < RegisterCount && Apply(op, s.before, ins.a, ins.b, ins.c) == s.after
  }

  /** A sample matches `op` exactly when `after` agrees with `before` outside
      register `c` and holds the operation's value in `c`. */
  lemma MatchesIff(s: Sample, op: Op)
    requires WellFormedSample(s)
    ensures var ins := s.instruction;
      Matches(s, op) <==>
        ins.c < RegisterCount &&
        s.after[ins.c] == Value(op, s.before, ins.a, ins.b) &&
        forall i :: 0 <= i < RegisterCount && i != ins.c ==> s.after[i] == s.before[i]
  {
    var ins := s.instruction;
    if ins.c < RegisterCount {
      var r := Apply(op, s.before, ins.a, ins.b, ins.c);
      if r != s.after {
        assert exists i :: 0 <= i < RegisterCount && r[i] != s.after[i];
      }
    }
  }

  /** `behave_like?`: runs the operation on a clone of `before` and compares. */
  method BehaveLike(s: Sample, op: Op) returns (r: bool)
    requires WellFormedSample(s)
    ensures r <==> Matches(s, op)
  {
    var regs := new nat[RegisterCount](i requires 0 <= i < RegisterCount => s.before[i]);
    assert regs[..] == s.before;
    var ins := s.instruction;
    if ins.c >= regs.Length {
      return false;
    }
    Exec(op, regs, ins.a, ins.b, ins.c);
    r := regs[..] == s.after;
  }

  /** `opcodes.select { |opcode| sample.behave_like?(opcode) }` */
  function Matching(s: Sample, ops: seq<Op>): (r: seq<Op>)
    requires WellFormedSample(s)
    ensures |r| <= |ops|
    ensures forall op :: op in r <==> op in ops && Matches(s, op)
  {
    if ops == [] then []
    else Matching(s, ops[..|ops| - 1]) + (if Matches(s, ops[|ops| - 1]) then [ops[|ops| - 1]] else [])
  }

  method MatchingOps(s: Sample, ops: seq<Op>) returns (m: seq<Op>)
    requires WellFormedSample(s)
    ensures m == Matching(s, ops)
  {
    m := [];
    for i := 0 to |ops|
      invariant m == Matching(s, ops[..i])
    {
      var b := BehaveLike(s, ops[i]);
      if b {
        m := m + [ops[i]];
      }
      assert ops[..i + 1][..i] == ops[..i];
    }
    assert ops[..|ops|] == ops;
  }

  // ---------------------------------------------------------------------
  // Samples that behave like three or more opcodes.

  /** The number of samples matched by at least three of the sixteen operations. */
  function ThreeOrMore(samples: seq<Sample>): nat
    requires WellFormedSamples(samples)
  {
    if samples == [] then 0
    else ThreeOrMore(samples[..|samples| - 1]) + (if |Matching(samples[|samples| - 1], AllOps)| >= 3 then 1 else 0)
  }

  /** The indices of the samples matched by at least three operations. */
  function Qualifying(samples: seq<Sample>): set<nat>
    requires WellFormedSamples(samples)
  {
    set i: nat | i < |samples| && |Matching(samples[i], AllOps)| >= 3
  }

  /** The statistic counts exactly the qualifying samples. */
  lemma {:induction false} ThreeOrMoreCountsQualifyingSamples(samples: seq<Sample>)
    requires WellFormedSamples(samples)
    ensures ThreeOrMore(samples) == |Qualifying(samples)|
  {
    if samples != [] {
      var n := |samples| - 1;
      var init := samples[..n];
      ThreeOrMoreCountsQualifyingSamples(init);
      assert samples[..|samples| - 1] == init;
      QualifyingSnoc(samples);
    }
  }

  /** The last sample adds its index to the qualifying ones exactly when
      it qualifies. */
  lemma QualifyingSnoc(samples: seq<Sample>)
    requires WellFormedSamples(samples) && samples != []
    ensures var n := |samples| - 1;
      Qualifying(samples) == Qualifying(samples[..n]) + (if |Matching(samples[n], AllOps)| >= 3 then {n} else {})
  {
    var n := |samples| - 1;
    var init := samples[..n];
    assert forall i :: 0 <= i < n ==> init[i] == samples[i];
  }

  /** `opcodes.count { |opcode| sample.behave_like?(opcode) }` */
  method CountMatching(s: Sample) returns (matching: nat)
    requires WellFormedSample(s)
    ensures matching == |Matching(s, AllOps)|
  {
    matching := 0;
    for j := 0 to |AllOps|
      invariant matching == |Matching(s, AllOps[..j])|
    {
      var b := BehaveLike(s, AllOps[j]);
      if b {
        matching := matching + 1;
      }
      assert AllOps[..j + 1][..j] == AllOps[..j];
    }
    assert AllOps[..|AllOps|] == AllOps;
  }

  /** The count over all samples, one sample at a time. */
  method CountThreeOrMore(samples: seq<Sample>) returns (count: nat)
    requires WellFormedSamples(samples)
    ensures count == ThreeOrMore(samples)
  {
    count := 0;
    for i := 0 to |samples|
      invariant count == ThreeOrMore(samples[..i])
    {
      var matching := CountMatching(samples[i]);
      if matching >= 3 {
        count := count + 1;
      }
      assert samples[..i + 1][..i] == samples[..i];
    }
    assert samples[..|samples|] == samples;
  }

  // ---------------------------------------------------------------------
  // The resolver.

  /** The resolver's state: the remaining samples, the unassigned
      operations, and the table from opcode number to operation. */
  datatype Resolver = Resolver(samples: seq<Sample>, candidates: seq<Op>, table: seq<Option<Op>>)

  predicate ValidResolver(st: Resolver)
  {
    |st.table| == OpcodeCount && ValidSamples(st.samples)
  }

  function InitialResolver(samples: seq<Sample>): (st: Resolver)
    requires ValidSamples(samples)
    ensures ValidResolver(st)
  {
    Resolver(samples, AllOps, seq(OpcodeCount, _ => None))
  }

  /** The samples that match exactly one candidate, paired with that
      candidate, in sample order. */
  function Singletons(samples: seq<Sample>, cands: seq<Op>): (r: seq<(Sample, Op)>)
    requires ValidSamples(samples)
    ensures forall p :: p in r ==> ValidSample(p.0)
  {
    if samples == [] then []
    else
      var s := samples[|samples| - 1];
      var m := Matching(s, cands);
      Singletons(samples[..|samples| - 1], cands) + (if |m| == 1 then [(s, m[0])] else [])
  }

  /** Every singleton pairs a sample of the list with the one candidate it
      matches. */
  lemma {:induction false} SingletonsSound(samples: seq<Sample>, cands: seq<Op>)
    requires ValidSamples(samples)
    ensures forall p :: p in Singletons(samples, cands) ==> p.0 in samples && Matching(p.0, cands) == [p.1]
  {
    if samples != [] {
      var init := samples[..|samples| - 1];
      SingletonsSound(init, cands);
      assert forall s :: s in init ==> s in samples;
    }
  }

  /** One iteration of the `each`: the sample is deleted, and its number is
      assigned the operation unless it already has one. */
  function AssignOne(st: Resolver, single: (Sample, Op)): (r: Resolver)
    requires ValidResolver(st) && ValidSample(single.0)
    ensures ValidResolver(r)
  {
    var (sample, op) := single;
    var rest := Delete(st.samples, sample);
    var nr := sample.instruction.opcodeNr;
    if st.table[nr].Some? then st.(samples := rest)
    else Resolver(rest, Delete(st.candidates, op), st.table[nr := Some(op)])
  }

  function AssignAll(st: Resolver, singles: seq<(Sample, Op)>): (r: Resolver)
    requires ValidResolver(st) && forall p :: p in singles ==> ValidSample(p.0)
    ensures ValidResolver(r)
  {
    if singles == [] then st
    else AssignOne(AssignAll(st, singles[..|singles| - 1]), singles[|singles| - 1])
  }

  /** One pass of `until opcodes.empty?`: the singletons are found against
      the candidates at the start of the pass, then processed in order. */
  function ResolvePass(st: Resolver): (r: Resolver)
    requires ValidResolver(st)
    ensures ValidResolver(r)
  {
    AssignAll(st, Singletons(st.samples, st.candidates))
  }

  /** The state after `n` passes, standing still once no candidate is left. */
  function ResolveRounds(st: Resolver, n: nat): (r: Resolver)
    requires ValidResolver(st)
    ensures ValidResolver(r)
  {
    if n == 0 then st
    else
      var p := ResolveRounds(st, n - 1);
      if p.candidates == [] then p else ResolvePass(p)
  }

  lemma RoundsNext(st: Resolver, m: nat)
    requires ValidResolver(st)
    ensures ResolveRounds(st, m + 1) ==
      (var p := ResolveRounds(st, m); if p.candidates == [] then p else ResolvePass(p))
  {
  }

  /** `mappings.select { |_, matching_opcodes| matching_opcodes.size == 1 }` */
  method FindSingletons(samples: seq<Sample>, cands: seq<Op>) returns (singles: seq<(Sample, Op)>)
    requires ValidSamples(samples)
    ensures singles == Singletons(samples, cands)
  {
    singles := [];
    for i := 0 to |samples|
      invariant singles == Singletons(samples[..i], cands)
    {
      var m := MatchingOps(samples[i], cands);
      if |m| == 1 {
        singles := singles + [(samples[i], m[0])];
      }
      assert samples[..i + 1][..i] == samples[..i];
    }
    assert samples[..|samples|] == samples;
  }

  /** The `each` over the singletons: deletes each sample, and fills an
      empty table slot and deletes the operation from the candidates. */
  method AssignSingletons(table: array<Option<Op>>, samples: seq<Sample>, cands: seq<Op>, singles: seq<(Sample, Op)>)
    returns (samples': seq<Sample>, cands': seq<Op>)
    requires table.Length == OpcodeCount && ValidSamples(samples)
    requires forall p :: p in singles ==> ValidSample(p.0)
    modifies table
    ensures Resolver(samples', cands', table[..]) == AssignAll(Resolver(samples, cands, old(table[..])), singles)
  {
    ghost var st0 := Resolver(samples, cands, table[..]);
    samples', cands' := samples, cands;
    for j := 0 to |singles|
      invariant Resolver(samples', cands', table[..]) == AssignAll(st0, singles[..j])
    {
      assert singles[..j + 1][..j] == singles[..j];
      assert singles[j] in singles;
      var (sample, op) := singles[j];
      samples' := Delete(samples', sample);
      var nr := sample.instruction.opcodeNr;
      if table[nr].None? {
        table[nr] := Some(op);
        cands' := Delete(cands', op);
      }
    }
    assert singles[..|singles|] == singles;
  }

  /** One pass of the `until` loop, on the table array and the current
      sample and candidate lists. */
  method ResolveOnePass(table: array<Option<Op>>, samples: seq<Sample>, cands: seq<Op>, ghost init: Resolver, ghost rounds: nat)
    returns (samples': seq<Sample>, cands': seq<Op>)
    requires ValidResolver(init) && cands != []
    requires table.Length == OpcodeCount && ValidSamples(samples)
    requires Resolver(samples, cands, table[..]) == ResolveRounds(init, rounds)
    modifies table
    ensures ValidSamples(samples')
    ensures Resolver(samples', cands', table[..]) == ResolveRounds(init, rounds + 1)
  {
    RoundsNext(init, rounds);
    var singles := FindSingletons(samples, cands);
    samples', cands' := AssignSingletons(table, samples, cands, singles);
  }

  /** The resolver loop; `fuel` bounds the passes, since a pass without a
      singleton sample changes nothing and the source then spins forever. */
  method Resolve(samples: seq<Sample>, fuel: nat) returns (table: array<Option<Op>>, resolved: bool, rounds: nat)
    requires ValidSamples(samples)
    ensures var st := ResolveRounds(InitialResolver(samples), rounds);
      table[..] == st.table && (resolved <==> st.candidates == []) && (!resolved ==> rounds == fuel)
  {
    table := new Option<Op>[OpcodeCount](_ => None);
    var remaining := samples;
    var cands := AllOps;
    rounds := 0;
    ghost var init := InitialResolver(samples);
    assert table[..] == init.table;
    while cands != [] && rounds < fuel
      invariant table.Length == OpcodeCount && ValidSamples(remaining)
      invariant Resolver(remaining, cands, table[..]) == ResolveRounds(init, rounds)
      invariant rounds <= fuel
      decreases fuel - rounds
    {
      remaining, cands := ResolveOnePass(table, remaining, cands, init, rounds);
      rounds := rounds + 1;
    }
    resolved := cands == [];
  }

  // ---------------------------------------------------------------------
  // Properties of the resolver.

  /** A number that already has an operation keeps it. */
  lemma {:induction false} AssignAllNeverOverwrites(st: Resolver, singles: seq<(Sample, Op)>, n: nat)
    requires ValidResolver(st) && forall p :: p in singles ==> ValidSample(p.0)
    requires n < OpcodeCount && st.table[n].Some?
    ensures AssignAll(st, singles).table[n] == st.table[n]
  {
    if singles != [] {
      AssignAllNeverOverwrites(st, singles[..|singles| - 1], n);
    }
  }

  lemma PassNeverOverwrites(st: Resolver, n: nat)
    requires ValidResolver(st) && n < OpcodeCount && st.table[n].Some?
    ensures ResolvePass(st).table[n] == st.table[n]
  {
    AssignAllNeverOverwrites(st, Singletons(st.samples, st.candidates), n);
  }

  lemma RoundNeverOverwrites(st: Resolver, m: nat, n: nat)
    requires ValidResolver(st) && n < OpcodeCount && ResolveRounds(st, m).table[n].Some?
    ensures ResolveRounds(st, m + 1).table[n] == ResolveRounds(st, m).table[n]
  {
    RoundsNext(st, m);
    var p := ResolveRounds(st, m);
    if p.candidates != [] {
      PassNeverOverwrites(p, n);
    }
  }

  /** Once a number has an operation, every later pass keeps it. */
  lemma {:induction false} ResolveNeverOverwrites(st: Resolver, k: nat, m: nat, n: nat)
    requires ValidResolver(st) && k <= m && n < OpcodeCount
    requires ResolveRounds(st, k).table[n].Some?
    ensures ResolveRounds(st, m).table[n] == ResolveRounds(st, k).table[n]
    decreases m - k
  {
    if k < m {
      RoundNeverOverwrites(st, k, n);
      ResolveNeverOverwrites(st, k + 1, m, n);
    }
  }

  /** A pass without a singleton sample leaves the state as it was. */
  lemma PassWithoutSingletonSpins(st: Resolver)
    requires ValidResolver(st) && Singletons(st.samples, st.candidates) == []
    ensures ResolvePass(st) == st
  {
  }

  /** No assigned operation is still a candidate, and every operation is
      either a candidate or assigned to some number. */
  predicate Bookkeeping(st: Resolver)
  {
    (forall n :: 0 <= n < |st.table| && st.table[n].Some? ==> st.table[n].value !in st.candidates) &&
    (forall op :: op in st.candidates || Some(op) in st.table)
  }

  lemma {:induction false} AssignAllKeepsBookkeeping(st: Resolver, singles: seq<(Sample, Op)>)
    requires ValidResolver(st) && forall p :: p in singles ==> ValidSample(p.0)
    requires Bookkeeping(st)
    ensures Bookkeeping(AssignAll(st, singles))
  {
    if singles != [] {
      AssignAllKeepsBookkeeping(st, singles[..|singles| - 1]);
      var p := AssignAll(st, singles[..|singles| - 1]);
      var r := AssignOne(p, singles[|singles| - 1]);
      var nr := singles[|singles| - 1].0.instruction.opcodeNr;
      if p.table[nr].None? {
        var newOp := singles[|singles| - 1].1;
        assert r.table == p.table[nr := Some(newOp)];
        assert r.candidates == Delete(p.candidates, newOp);
        forall op
          ensures op in r.candidates || Some(op) in r.table
        {
          if op == newOp {
            assert r.table[nr] == Some(op);
          } else if op !in p.candidates {
            assert Some(op) in p.table;
            var n :| 0 <= n < |p.table| && p.table[n] == Some(op);
            assert n != nr;
            assert r.table[n] == Some(op);
          }
        }
      }
    }
  }

  lemma {:induction false} ResolveKeepsBookkeeping(samples: seq<Sample>, n: nat)
    requires ValidSamples(samples)
    ensures Bookkeeping(ResolveRounds(InitialResolver(samples), n))
  {
    var init := InitialResolver(samples);
    if n == 0 {
      forall op
        ensures op in init.candidates
      {
        AllOpsListsEveryOpOnce(op);
      }
    } else {
      ResolveKeepsBookkeeping(samples, n - 1);
      var p := ResolveRounds(init, n - 1);
      if p.candidates != [] {
        AssignAllKeepsBookkeeping(p, Singletons(p.samples, p.candidates));
      }
    }
  }

  /** Once the candidate list is empty, every operation is in the table. */
  lemma ResolvedTableNamesEveryOp(samples: seq<Sample>, n: nat, op: Op)
    requires ValidSamples(samples)
    requires ResolveRounds(InitialResolver(samples), n).candidates == []
    ensures Some(op) in ResolveRounds(InitialResolver(samples), n).table
  {
    ResolveKeepsBookkeeping(samples, n);
  }

  /** Every number a pass assigns comes from a sample with that number that
      matched exactly one candidate at the start of the pass, and every
      processed sample is deleted. */
  lemma {:induction false} AssignAllFromSingletons(st: Resolver, singles: seq<(Sample, Op)>, n: nat)
    requires ValidResolver(st) && forall p :: p in singles ==> ValidSample(p.0)
    requires n < OpcodeCount && st.table[n].None? && AssignAll(st, singles).table[n].Some?
    ensures exists p :: p in singles && p.0.instruction.opcodeNr == n && p.1 == AssignAll(st, singles).table[n].value
  {
    if singles != [] {
      var init := singles[..|singles| - 1];
      var last := singles[|singles| - 1];
      var p := AssignAll(st, init);
      if p.table[n].Some? {
        AssignAllFromSingletons(st, init, n);
        var q :| q in init && q.0.instruction.opcodeNr == n && q.1 == p.table[n].value;
        assert q in singles;
      } else {
        assert last in singles;
      }
    }
  }

  lemma PassAssignsOnlyFromSingletons(st: Resolver, n: nat)
    requires ValidResolver(st)
    requires n < OpcodeCount && st.table[n].None? && ResolvePass(st).table[n].Some?
    ensures exists s :: (s in st.samples && ValidSample(s) && s.instruction.opcodeNr == n &&
      Matching(s, st.candidates) == [ResolvePass(st).table[n].value])
  {
    var singles := Singletons(st.samples, st.candidates);
    SingletonsSound(st.samples, st.candidates);
    AssignAllFromSingletons(st, singles, n);
    var p :| p in singles && p.0.instruction.opcodeNr == n && p.1 == ResolvePass(st).table[n].value;
    assert p.0 in st.samples;
  }

  lemma {:induction false} AssignAllDeletesProcessed(st: Resolver, singles: seq<(Sample, Op)>)
    requires ValidResolver(st) && forall p :: p in singles ==> ValidSample(p.0)
    ensures forall s :: s in AssignAll(st, singles).samples ==> s in st.samples
    ensures forall p :: p in singles ==> p.0 !in AssignAll(st, singles).samples
  {
    if singles != [] {
      AssignAllDeletesProcessed(st, singles[..|singles| - 1]);
      forall p | p in singles
        ensures p.0 !in AssignAll(st, singles).samples
      {
        if p != singles[|singles| - 1] {
          assert p in singles[..|singles| - 1];
        }
      }
    }
  }

  /** A pass deletes every singleton sample and adds none. */
  lemma PassDeletesSingletons(st: Resolver)
    requires ValidResolver(st)
    ensures forall s :: s in ResolvePass(st).samples ==> s in st.samples
    ensures forall p :: p in Singletons(st.samples, st.candidates) ==> p.0 !in ResolvePass(st).samples
  {
    AssignAllDeletesProcessed(st, Singletons(st.samples, st.candidates));
  }

  // ---------------------------------------------------------------------
  // Soundness: with samples produced by a real table, the resolver finds it.

  /** `truth` is a one-to-one table of the sixteen numbers. */
  predicate IsTable(truth: seq<Op>)
  {
    |truth| == OpcodeCount && Distinct(truth)
  }

  /** Every sample was produced by the operation `truth` gives its number. */
  predicate Consistent(samples: seq<Sample>, truth: seq<Op>)
    requires IsTable(truth)
  {
    forall s :: s in samples ==> ValidSample(s) && Matches(s, truth[s.instruction.opcodeNr])
  }

  /** Assigned numbers carry their true operation; unassigned numbers still
      have their true operation among the candidates. */
  predicate AgreesWith(st: Resolver, truth: seq<Op>)
    requires IsTable(truth)
  {
    |st.table| == OpcodeCount &&
    forall n :: 0 <= n < OpcodeCount ==>
      (st.table[n].Some? ==> st.table[n].value == truth[n]) &&
      (st.table[n].None? ==> truth[n] in st.candidates)
  }

  /** Assigning one singleton found against the candidates `st0` had at
      the start of the pass keeps the table true. */
  lemma AssignOneAgrees(st0: Resolver, st: Resolver, single: (Sample, Op), truth: seq<Op>)
    requires IsTable(truth) && ValidResolver(st0) && ValidResolver(st)
    requires AgreesWith(st0, truth) && AgreesWith(st, truth)
    requires forall n :: 0 <= n < OpcodeCount && st.table[n].None? ==> st0.table[n].None?
    requires ValidSample(single.0) && Matches(single.0, truth[single.0.instruction.opcodeNr])
    requires Matching(single.0, st0.candidates) == [single.1]
    ensures AgreesWith(AssignOne(st, single), truth)
    ensures forall n :: 0 <= n < OpcodeCount && AssignOne(st, single).table[n].None? ==> st0.table[n].None?
  {
    var (sample, op) := single;
    var nr := sample.instruction.opcodeNr;
    if st.table[nr].None? {
      assert truth[nr] in Matching(sample, st0.candidates);
      var r := AssignOne(st, single);
      assert r.table == st.table[nr := Some(truth[nr])];
      forall n | 0 <= n < OpcodeCount && r.table[n].None?
        ensures truth[n] in r.candidates
      {
        assert truth[n] != truth[nr];
      }
    }
  }

  lemma {:induction false} AssignAllAgrees(st0: Resolver, st: Resolver, singles: seq<(Sample, Op)>, truth: seq<Op>)
    requires IsTable(truth) && ValidResolver(st0) && ValidResolver(st)
    requires AgreesWith(st0, truth) && AgreesWith(st, truth)
    requires forall n :: 0 <= n < OpcodeCount && st.table[n].None? ==> st0.table[n].None?
    requires forall p :: p in singles ==> ValidSample(p.0) && Matches(p.0, truth[p.0.instruction.opcodeNr])
    requires forall p :: p in singles ==> ValidSample(p.0) && Matching(p.0, st0.candidates) == [p.1]
    ensures AgreesWith(AssignAll(st, singles), truth)
    ensures forall n :: 0 <= n < OpcodeCount && AssignAll(st, singles).table[n].None? ==> st0.table[n].None?
  {
    if singles != [] {
      var init := singles[..|singles| - 1];
      var last := singles[|singles| - 1];
      assert forall p :: p in init ==> p in singles;
      assert last in singles;
      AssignAllAgrees(st0, st, init, truth);
      AssignOneAgrees(st0, AssignAll(st, init), last, truth);
    }
  }

  lemma {:induction false} ResolveAgrees(samples: seq<Sample>, truth: seq<Op>, n: nat)
    requires IsTable(truth) && ValidSamples(samples) && Consistent(samples, truth)
    ensures var st := ResolveRounds(InitialResolver(samples), n);
      AgreesWith(st, truth) && Consistent(st.samples, truth)
  {
    var init := InitialResolver(samples);
    if n == 0 {
      forall k | 0 <= k < OpcodeCount
        ensures truth[k] in init.candidates
      {
        AllOpsListsEveryOpOnce(truth[k]);
      }
    } else {
      ResolveAgrees(samples, truth, n - 1);
      var p := ResolveRounds(init, n - 1);
      if p.candidates != [] {
        var singles := Singletons(p.samples, p.candidates);
        SingletonsSound(p.samples, p.candidates);
        AssignAllAgrees(p, p, singles, truth);
        PassDeletesSingletons(p);
      }
    }
  }

  /** When the resolver finishes on samples produced by a one-to-one table,
      its table is that table. */
  lemma ResolverFindsTheTable(samples: seq<Sample>, truth: seq<Op>, n: nat)
    requires IsTable(truth) && ValidSamples(samples) && Consistent(samples, truth)
    requires ResolveRounds(InitialResolver(samples), n).candidates == []
    ensures ResolveRounds(InitialResolver(samples), n).table == seq(OpcodeCount, k requires 0 <= k < OpcodeCount => Some(truth[k]))
  {
    ResolveAgrees(samples, truth, n);
    var st := ResolveRounds(InitialResolver(samples), n);
    assert forall k :: 0 <= k < OpcodeCount ==> st.table[k] == Some(truth[k]);
  }

  // ---------------------------------------------------------------------
  // The test program: straight-line, four registers, no program counter.

  /** `opcodes_by_nr[nr].exec(...)`: an unresolved number is Ruby's `nil`,
      which has no `exec`; a missing register is reported as a failure. */
  function ExecNumbered(table: seq<Option<Op>>, ins: NumberedInstruction, regs: seq<nat>): (r: Result<seq<nat>>)
    requires |regs| == RegisterCount
    ensures r.Ok? ==> |r.value| == RegisterCount
  {
    if ins.opcodeNr >= |table| || table[ins.opcodeNr].None? then Fail("undefined method exec for nil")
    else
      var op := table[ins.opcodeNr].value;
      if !WellFormed(op, RegisterCount, ins.a, ins.b, ins.c) then Fail("register out of range")
      else Ok(Apply(op, regs, ins.a, ins.b, ins.c))
  }

  /** The bank after running `prog` in list order from `regs`. */
  function RunFrom(table: seq<Option<Op>>, prog: seq<NumberedInstruction>, regs: seq<nat>): (r: Result<seq<nat>>)
    requires |regs| == RegisterCount
    ensures r.Ok? ==> |r.value| == RegisterCount
  {
    if prog == [] then Ok(regs)
    else
      match RunFrom(table, prog[..|prog| - 1], regs)
      case Fail(e) => Fail(e)
      case Ok(mid) => ExecNumbered(table, prog[|prog| - 1], mid)
  }

  /** Running `p` then `q` is running `p + q`; a failure stops the run. */
  lemma {:induction false} RunFromAppend(table: seq<Option<Op>>, p: seq<NumberedInstruction>, q: seq<NumberedInstruction>, regs: seq<nat>)
    requires |regs| == RegisterCount
    ensures RunFrom(table, p + q, regs) ==
      match RunFrom(table, p, regs)
      case Fail(e) => Fail(e)
      case Ok(mid) => RunFrom(table, q, mid)
    decreases |q|
  {
    if q == [] {
      assert p + q == p;
    } else {
      assert (p + q)[..|p + q| - 1] == p + q[..|q| - 1];
      RunFromAppend(table, p, q[..|q| - 1], regs);
    }
  }

  /** `program_instructions.each`, from four registers at 0. */
  method RunProgram(table: array<Option<Op>>, prog: seq<NumberedInstruction>) returns (r: Result<seq<nat>>)
    ensures r == RunFrom(table[..], prog, [0, 0, 0, 0])
  {
    var regs := new nat[RegisterCount](_ => 0);
    assert regs[..] == [0, 0, 0, 0];
    for i := 0 to |prog|
      invariant RunFrom(table[..], prog[..i], [0, 0, 0, 0]) == Ok(regs[..])
    {
      var ins := prog[i];
      assert prog[..i + 1][..i] == prog[..i];
      if ins.opcodeNr >= table.Length || table[ins.opcodeNr].None? {
        assert RunFrom(table[..], prog[..i + 1], [0, 0, 0, 0]) == Fail("undefined method exec for nil");
        RunFromAppend(table[..], prog[..i + 1], prog[i + 1..], [0, 0, 0, 0]);
        assert prog[..i + 1] + prog[i + 1..] == prog;
        return Fail("undefined method exec for nil");
      }
      var op := table[ins.opcodeNr].value;
      if !WellFormed(op, RegisterCount, ins.a, ins.b, ins.c) {
        assert RunFrom(table[..], prog[..i + 1], [0, 0, 0, 0]) == Fail("register out of range");
        RunFromAppend(table[..], prog[..i + 1], prog[i + 1..], [0, 0, 0, 0]);
        assert prog[..i + 1] + prog[i + 1..] == prog;
        return Fail("register out of range");
      }
      Exec(op, regs, ins.a, ins.b, ins.c);
    }
    assert prog[..|prog|] == prog;
    r := Ok(regs[..]);
  }
}
