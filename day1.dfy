/** Frequency drift: a list of changes is applied over and over, starting
    from frequency 0; the first frequency reached twice is the answer. */
module Frequency {
  import opened Wrappers

  /** The position in the list of the `j`-th change applied (from 0), the
      list taken cyclically. */
  function CycleIndex(n: nat, j: nat): (i: nat)
    requires n > 0
    ensures i < n
  {
    if j < n then j else CycleIndex(n, j - n)
  }

  /** The cyclic position advances by one and wraps to 0 at the end. */
  lemma {:induction false} CycleIndexNext(n: nat, j: nat)
    requires n > 0
    ensures CycleIndex(n, j + 1) == if CycleIndex(n, j) + 1 == n then 0 else CycleIndex(n, j) + 1
  {
    if j + 1 > n {
      CycleIndexNext(n, j - n);
    }
  }

  /** The frequency after `k` changes, the list taken cyclically. */
  function Drift(changes: seq<int>, k: nat): int
    requires changes != []
  {
    if k == 0 then 0 else Drift(changes, k - 1) + changes[CycleIndex(|changes|, k - 1)]
  }

  /** The frequencies reached before the `k`-th change was applied. */
  ghost function SeenBefore(changes: seq<int>, k: nat): set<int>
    requires changes != []
  {
    set j | 0 <= j < k :: Drift(changes, j)
  }

  /** The frequency after change `k` was reached earlier. */
  ghost predicate RepeatsAt(changes: seq<int>, k: nat)
    requires changes != []
  {
    k >= 1 && Drift(changes, k) in SeenBefore(changes, k)
  }

  /** Within the first pass the frequency is the sum of the changes so far. */
  lemma {:induction false} DriftFirstPass(changes: seq<int>, m: nat)
    requires changes != [] && m <= |changes|
    ensures Drift(changes, m) == Sum(changes[..m])
  {
    if m > 0 {
      DriftFirstPass(changes, m - 1);
      assert changes[..m][..m - 1] == changes[..m - 1];
    }
  }

  /** One more pass over the list adds the sum of all changes. */
  lemma {:induction false} DriftPeriodic(changes: seq<int>, k: nat)
    requires changes != []
    ensures Drift(changes, k + |changes|) == Drift(changes, k) + Sum(changes)
  {
    if k == 0 {
      DriftFirstPass(changes, |changes|);
      assert changes[..|changes|] == changes;
    } else {
      DriftPeriodic(changes, k - 1);
    }
  }

  /** The resulting frequency after one pass is the sum of all changes, and
      `n` passes drift by `n` times that sum. */
  lemma {:induction false} DriftOverPasses(changes: seq<int>, n: nat)
    requires changes != []
    ensures Drift(changes, n * |changes|) == n * Sum(changes)
  {
    if n > 0 {
      DriftOverPasses(changes, n - 1);
      DriftPeriodic(changes, (n - 1) * |changes|);
      assert (n - 1) * |changes| + |changes| == n * |changes|;
    }
  }

  /** When the changes sum to 0, the frequency 0 is reached again after one
      pass, so a repeat exists within the first pass. */
  lemma ZeroSumRepeatsWithinOnePass(changes: seq<int>)
    requires changes != [] && Sum(changes) == 0
    ensures RepeatsAt(changes, |changes|)
  {
    DriftOverPasses(changes, 1);
    assert Drift(changes, 0) in SeenBefore(changes, |changes|);
  }

  /** With the single change `+1` every frequency is new: the source loop
      never returns. */
  lemma {:induction false} SingleIncrementNeverRepeats(k: nat)
    ensures Drift([1], k) == k
    ensures !RepeatsAt([1], k)
  {
    if k > 0 {
      SingleIncrementNeverRepeats(k - 1);
    }
    forall j | 0 <= j < k
      ensures Drift([1], j) < k
    {
      SingleIncrementNeverRepeats(j);
    }
  }

  /** `changes.sum`, the resulting frequency. */
  method ResultingFrequency(changes: seq<int>) returns (freq: int)
    ensures freq == Sum(changes)
  {
    freq := 0;
    for i := 0 to |changes|
      invariant freq == Sum(changes[..i])
    {
      SumAppend(changes[..i], [changes[i]]);
      assert changes[..i + 1] == changes[..i] + [changes[i]];
      freq := freq + changes[i];
    }
    assert changes[..|changes|] == changes;
  }

  /** `first_recurring`: the changes are cycled until a frequency repeats.
      An empty list gives `nil`; `fuel` bounds the number of changes applied
      (returned in `k`), since with a list such as `[1]` the source loops forever. */
  method FirstRecurring(changes: seq<int>, fuel: nat) returns (r: Option<int>, k: nat)
    ensures changes == [] ==> r == None
    ensures r.Some? ==> (changes != [] && 1 <= k <= fuel && RepeatsAt(changes, k) &&
      r.value == Drift(changes, k) && forall j :: 1 <= j < k ==> !RepeatsAt(changes, j))
    ensures r.None? && changes != [] ==> forall j :: 1 <= j <= fuel ==> !RepeatsAt(changes, j)
  {
    k := 0;
    if changes == [] {
      return None, k;
    }
    var freq := 0;
    var frequencies: set<int> := {};
    var i := 0;
    while k < fuel
      invariant k <= fuel && i == CycleIndex(|changes|, k)
      invariant freq == Drift(changes, k)
      invariant frequencies == SeenBefore(changes, k)
      invariant forall j :: 1 <= j <= k ==> !RepeatsAt(changes, j)
      decreases fuel - k
    {
      frequencies := frequencies + {freq};
      freq := freq + changes[i];
      k := k + 1;
      assert frequencies == SeenBefore(changes, k);
      if freq in frequencies {
        return Some(freq), k;
      }
      CycleIndexNext(|changes|, k - 1);
      i := if i + 1 == |changes| then 0 else i + 1;
    }
    r := None;
  }
}
