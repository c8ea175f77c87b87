/** Recipe scoreboard: two elves repeatedly combine their current recipes,
    append the digits of the sum of their scores to the board and step
    forward; the search looks for where a given digit pattern first appears. */
module RecipeBoard {
  import opened Wrappers

  /** The decimal digits of `n`, most significant first (`n.digits.reverse`);
      `0` gives `[0]`. */
  function Digits(n: nat): (d: seq<nat>)
    ensures 1 <= |d|
    ensures forall i :: 0 <= i < |d| ==> d[i] <= 9
    decreases n
  {
    if n < 10 then [n] else Digits(n / 10) + [n % 10]
  }

  /** The number a digit list spells. */
  function FromDigits(d: seq<nat>): nat
  {
    if d == [] then 0 else 10 * FromDigits(d[..|d| - 1]) + d[|d| - 1]
  }

  /** The digits spell the number back. */
  lemma {:induction false} DigitsRoundTrip(n: nat)
    ensures FromDigits(Digits(n)) == n
    decreases n
  {
    if n >= 10 {
      DigitsRoundTrip(n / 10);
      var d := Digits(n);
      assert d[..|d| - 1] == Digits(n / 10);
    }
  }

  /** Below 100 the sum has one digit, or two from 10 on: the two elves'
      scores add up to at most 18. */
  lemma DigitsOfSmallSum(n: nat)
    requires n < 100
    ensures |Digits(n)| == (if n < 10 then 1 else 2)
    ensures n >= 10 ==> Digits(n) == [n / 10, n % 10]
  {
  }

  /** The sum of the scores of the recipes at positions `cur`. */
  function Total(scores: seq<nat>, cur: seq<nat>): (t: nat)
    requires forall e :: 0 <= e < |cur| ==> cur[e] < |scores|
    ensures (forall i :: 0 <= i < |scores| ==> scores[i] <= 9) ==> t <= 9 * |cur|
  {
    if cur == [] then 0 else Total(scores, cur[..|cur| - 1]) + scores[cur[|cur| - 1]]
  }

  /** Every score is a digit and each of the two elves stands on a recipe. */
  predicate Sound(scores: seq<nat>, current: seq<nat>)
  {
    |scores| >= 1 && |current| == 2 &&
    (forall i :: 0 <= i < |scores| ==> scores[i] <= 9) &&
    (forall e :: 0 <= e < |current| ==> current[e] < |scores|)
  }

  /** The scoreboard and the elves' current recipes as a value. */
  datatype Kitchen = Kitchen(scores: seq<nat>, current: seq<nat>)

  /** One round of `cook_and_move` on values: the digits of the total are
      appended, then each elf steps `1 + score` recipes around the new
      board. A sound board stays sound and grows by one or two recipes,
      the old ones unchanged. */
  function Cook(k: Kitchen): (r: Kitchen)
    requires Sound(k.scores, k.current)
    ensures Sound(r.scores, r.current)
    ensures |k.scores| < |r.scores| <= |k.scores| + 2 && r.scores[..|k.scores|] == k.scores
  {
    var t := Total(k.scores, k.current);
    DigitsOfSmallSum(t);
    var scores := k.scores + Digits(t);
    Kitchen(scores, Stepped(k.current, k.scores, |scores|))
  }

  /** Each elf at `cur[e]` steps `1 + score` recipes forward around a board
      of `size` recipes. */
  function Stepped(cur: seq<nat>, scores: seq<nat>, size: nat): (r: seq<nat>)
    requires size > 0 && forall e :: 0 <= e < |cur| ==> cur[e] < |scores|
    ensures |r| == |cur|
    ensures forall e :: 0 <= e < |r| ==> r[e] < size
  {
    if cur == [] then []
    else Stepped(cur[..|cur| - 1], scores, size) + [(cur[|cur| - 1] + 1 + scores[cur[|cur| - 1]]) % size]
  }

  /** Entry `e` of `Stepped` is elf `e`'s new recipe. */
  lemma {:induction false} SteppedAt(cur: seq<nat>, scores: seq<nat>, size: nat)
    requires size > 0 && forall e :: 0 <= e < |cur| ==> cur[e] < |scores|
    ensures forall e :: 0 <= e < |cur| ==>
      Stepped(cur, scores, size)[e] == (cur[e] + 1 + scores[cur[e]]) % size
  {
    if cur != [] {
      SteppedAt(cur[..|cur| - 1], scores, size);
    }
  }

  /** The board after `n` rounds from `[3, 7]` with the elves on 0 and 1;
      it holds at least `n + 2` recipes. */
  function Cooked(n: nat): (r: Kitchen)
    ensures Sound(r.scores, r.current)
    ensures |r.scores| >= n + 2
  {
    if n == 0 then Kitchen([3, 7], [0, 1]) else Cook(Cooked(n - 1))
  }

  /** `a` is a prefix of `c`. */
  predicate Extends(c: seq<nat>, a: seq<nat>)
  {
    |a| <= |c| && c[..|a|] == a
  }

  /** Extending is transitive. */
  lemma ExtendsTrans(c: seq<nat>, b: seq<nat>, a: seq<nat>)
    requires Extends(c, b) && Extends(b, a)
    ensures Extends(c, a)
  {
    assert c[..|a|] == c[..|b|][..|a|];
  }

  /** One round keeps the board before it as a prefix. */
  lemma CookedStep(n: nat)
    ensures Extends(Cooked(n + 1).scores, Cooked(n).scores)
  {
  }

  /** Cooking never changes a recipe already on the board: the board after
      `i` rounds is a prefix of the board after any later round. */
  lemma {:induction false} CookedPrefix(i: nat, j: nat)
    requires i <= j
    ensures Extends(Cooked(j).scores, Cooked(i).scores)
    decreases j - i
  {
    if i < j {
      CookedPrefix(i, j - 1);
      CookedStep(j - 1);
      ExtendsTrans(Cooked(j).scores, Cooked(j - 1).scores, Cooked(i).scores);
    } else {
      var a := Cooked(i).scores;
      assert a[..|a|] == a;
    }
  }

  /** A board after `cook_and_move`, described entry by entry, is `Cook`
      of the board before. */
  lemma CookIsCookAndMove(k: Kitchen, r: Kitchen)
    requires Sound(k.scores, k.current)
    requires r.scores == k.scores + Digits(Total(k.scores, k.current))
    requires |r.current| == |k.current|
    requires forall e :: 0 <= e < |r.current| ==>
      r.current[e] == (k.current[e] + 1 + k.scores[k.current[e]]) % |r.scores|
    ensures r == Cook(k)
  {
    SteppedAt(k.current, k.scores, |r.scores|);
  }

  /** The pattern appears nowhere on the board. */
  ghost predicate Absent(pattern: seq<nat>, scores: seq<nat>)
  {
    forall k: nat :: !OccursAt(pattern, scores, k)
  }

  /** The scoreboard and the elves' current recipes, updated in place. */
  class Board {
    var scores: seq<nat>
    var current: seq<nat>

    /** Every score is a digit and each of the two elves stands on a recipe. */
    ghost predicate Valid()
      reads this
    {
      Sound(scores, current)
    }

    /** The starting board `[3, 7]` with the elves on recipes 0 and 1. */
    constructor ()
      ensures Valid() && scores == [3, 7] && current == [0, 1]
      ensures Kitchen(scores, current) == Cooked(0)
    {
      scores := [3, 7];
      current := [0, 1];
    }

    /** `cook_and_move`: the digits of the total are appended (existing
        scores never change), then each elf moves `1 + score` recipes
        forward around the new board. */
    method CookAndMove()
      requires Valid()
      modifies this
      ensures Valid()
      ensures scores == old(scores) + Digits(Total(old(scores), old(current)))
      ensures |current| == |old(current)|
      ensures forall e :: 0 <= e < |current| ==>
        current[e] == (old(current[e]) + 1 + old(scores[current[e]])) % |scores|
      ensures Kitchen(scores, current) == Cook(old(Kitchen(scores, current)))
    {
      var total := SumCurrent();
      ghost var oldScores := scores;
      scores := scores + Digits(total);
      MoveElves(oldScores);
      CookIsCookAndMove(Kitchen(oldScores, old(current)), Kitchen(scores, current));
    }

    /** The sum of the scores of the elves' current recipes. */
    method SumCurrent() returns (total: nat)
      requires Valid()
      ensures total == Total(scores, current)
    {
      total := 0;
      for e := 0 to |current|
        invariant total == Total(scores, current[..e])
      {
        assert current[..e + 1][..e] == current[..e];
        total := total + scores[current[e]];
      }
      assert current[..|current|] == current;
    }

    /** Each elf steps `1 + score` recipes forward around the grown board,
        the score read from the board before the new recipes. */
    method MoveElves(ghost oldScores: seq<nat>)
      requires 0 < |oldScores| <= |scores| && oldScores == scores[..|oldScores|]
      requires forall e :: 0 <= e < |current| ==> current[e] < |oldScores|
      modifies this
      ensures scores == old(scores) && |current| == |old(current)|
      ensures forall e :: 0 <= e < |current| ==>
        current[e] == (old(current[e]) + 1 + oldScores[old(current[e])]) % |scores|
    {
      for e := 0 to |current|
        invariant scores == old(scores)
        invariant |current| == |old(current)|
        invariant forall k: nat :: 0 <= k < e ==> current[k] == (old(current[k]) + 1 + oldScores[old(current[k])]) % |scores|
        invariant forall k: nat :: e <= k < |current| ==> current[k] == old(current[k])
      {
        var cur := current[e];
        assert cur < |oldScores|;
        var steps := 1 + scores[cur];
        current := current[e := (cur + steps) % |scores|];
      }
    }

    /** `pattern_occurs_at`: each pattern digit equals the score at the same
        offset from `start`; past the end of the board Ruby reads `nil`,
        which equals no digit. */
    method PatternOccursAt(pattern: seq<nat>, start: nat) returns (r: bool)
      ensures r <==> OccursAt(pattern, scores, start)
    {
      for i := 0 to |pattern|
        invariant forall k: nat :: 0 <= k < i ==> start + k < |scores| && scores[start + k] == pattern[k]
      {
        if start + i >= |scores| || scores[start + i] != pattern[i] {
          OccursAtChecksEachDigit(pattern, scores, start, i);
          return false;
        }
      }
      return true;
    }

    /** `find` as written: only the starts `size - |p| - 1` and `size - |p|`
        are tried, and nothing at all while `size - |p| - 1` is negative. */
    method FindAsWritten(pattern: seq<nat>) returns (r: Option<nat>)
      ensures r == FindAsWrittenSpec(pattern, scores)
    {
      if |scores| < |pattern| + 1 {
        return None;
      }
      var startIdx := |scores| - |pattern| - 1;
      var endIdx := |scores| - |pattern|;
      for idx := startIdx to endIdx + 1
        invariant forall k: nat :: startIdx <= k < idx ==> !OccursAt(pattern, scores, k)
      {
        var hit := PatternOccursAt(pattern, idx);
        if hit {
          return Some(idx);
        }
      }
      return None;
    }

    /** `find` with the window clamped at 0, so that a board exactly as
        long as the pattern is checked at start 0. */
    method Find(pattern: seq<nat>) returns (r: Option<nat>)
      ensures r == FindSpec(pattern, scores)
    {
      if |scores| < |pattern| {
        return None;
      }
      var startIdx := if |scores| >= |pattern| + 1 then |scores| - |pattern| - 1 else 0;
      var endIdx := |scores| - |pattern|;
      for idx := startIdx to endIdx + 1
        invariant forall k: nat :: startIdx <= k < idx ==> !OccursAt(pattern, scores, k)
      {
        var hit := PatternOccursAt(pattern, idx);
        if hit {
          return Some(idx);
        }
      }
      return None;
    }
  }

  /** The pattern sits on the board from `start`. */
  predicate OccursAt(pattern: seq<nat>, scores: seq<nat>, start: nat)
  {
    forall j :: 0 <= j < |pattern| ==> start + j < |scores| && scores[start + j] == pattern[j]
  }

  /** An occurrence of a non-empty pattern lies wholly on the board. */
  lemma OccursAtFits(pattern: seq<nat>, scores: seq<nat>, start: nat)
    requires |pattern| >= 1 && OccursAt(pattern, scores, start)
    ensures start + |pattern| <= |scores|
    ensures scores[start..start + |pattern|] == pattern
  {
    var last := |pattern| - 1;
    assert pattern[last] >= 0;
    assert forall j :: 0 <= j < |pattern| ==> scores[start..start + |pattern|][j] == pattern[j];
  }

  /** A digit that is missing or differs rules the start out. */
  lemma OccursAtChecksEachDigit(pattern: seq<nat>, scores: seq<nat>, start: nat, i: nat)
    requires i < |pattern|
    requires start + i >= |scores| || scores[start + i] != pattern[i]
    ensures !OccursAt(pattern, scores, start)
  {
    assert pattern[i] >= 0;
  }

  function FindAsWrittenSpec(pattern: seq<nat>, scores: seq<nat>): (r: Option<nat>)
    ensures r.Some? ==> OccursAt(pattern, scores, r.value)
    ensures r.Some? ==> r.value + |pattern| + 1 == |scores| || r.value + |pattern| == |scores|
    ensures r == None <==> (|scores| < |pattern| + 1 ||
      (!OccursAt(pattern, scores, |scores| - |pattern| - 1) && !OccursAt(pattern, scores, |scores| - |pattern|)))
  {
    if |scores| < |pattern| + 1 then None
    else if OccursAt(pattern, scores, |scores| - |pattern| - 1) then Some(|scores| - |pattern| - 1)
    else if OccursAt(pattern, scores, |scores| - |pattern|) then Some(|scores| - |pattern|)
    else None
  }

  /** The window of starts the corrected `find` tries on a board of `size`. */
  predicate InWindow(size: nat, plen: nat, start: nat)
  {
    start + plen <= size && size <= start + plen + 1
  }

  function FindSpec(pattern: seq<nat>, scores: seq<nat>): (r: Option<nat>)
    ensures r.Some? ==> OccursAt(pattern, scores, r.value) && InWindow(|scores|, |pattern|, r.value)
    ensures r.Some? ==> forall k: nat :: k < r.value && InWindow(|scores|, |pattern|, k) ==> !OccursAt(pattern, scores, k)
    ensures r == None <==> forall k: nat :: InWindow(|scores|, |pattern|, k) ==> !OccursAt(pattern, scores, k)
  {
    if |scores| < |pattern| then None
    else if |scores| >= |pattern| + 1 && OccursAt(pattern, scores, |scores| - |pattern| - 1) then Some(|scores| - |pattern| - 1)
    else if OccursAt(pattern, scores, |scores| - |pattern|) then Some(|scores| - |pattern|)
    else None
  }

  /** With the window as written the board `[3, 7]` grows to
      `[3, 7, 1, 0]` and then `[3, 7, 1, 0, 1, 0]`, and the pattern
      `[3, 7, 1, 0]`, present at start 0 from the first round on, is
      missed by both searches, and no later window reaches start 0. */
  lemma AsWrittenMissesStartZero()
    ensures OccursAt([3, 7, 1, 0], [3, 7, 1, 0], 0)
    ensures FindAsWrittenSpec([3, 7, 1, 0], [3, 7]) == None
    ensures FindAsWrittenSpec([3, 7, 1, 0], [3, 7, 1, 0]) == None
    ensures FindAsWrittenSpec([3, 7, 1, 0], [3, 7, 1, 0, 1, 0]) == None
    ensures FindSpec([3, 7, 1, 0], [3, 7, 1, 0]) == Some(0)
    ensures forall size: nat :: size >= 6 ==> !InWindow(size, 4, 0)
  {
    var board := [3, 7, 1, 0, 1, 0];
    var pattern := [3, 7, 1, 0];
    assert board[1 + 0] != pattern[0];
    assert board[2 + 0] != pattern[0];
  }

  /** The first two rounds from the starting board, as `cook_and_move`
      produces them. */
  method FirstTwoRounds() returns (b: Board)
    ensures b.Valid() && b.scores == [3, 7, 1, 0, 1, 0]
  {
    b := new Board();
    assert Total(b.scores, b.current) == 10 by {
      assert b.current[..1] == [0];
    }
    DigitsOfSmallSum(10);
    b.CookAndMove();
    assert b.scores == [3, 7, 1, 0] && b.current == [0, 1];
    assert Total(b.scores, b.current) == 10 by {
      assert b.current[..1] == [0];
    }
    b.CookAndMove();
  }

  /** The driver: cook until the corrected `find` succeeds, at most `fuel`
      rounds. The board is the one cooked in `rounds` rounds from the start,
      the pattern appeared on none of the earlier boards, and the answer is
      the number of recipes before its first occurrence. */
  method RecipesBefore(pattern: seq<nat>, fuel: nat) returns (r: Option<nat>, b: Board, rounds: nat)
    requires |pattern| >= 1
    ensures b.Valid()
    ensures rounds <= fuel && Kitchen(b.scores, b.current) == Cooked(rounds)
    ensures r.None? ==> rounds == fuel
    ensures forall j :: 0 <= j < rounds ==> Absent(pattern, Cooked(j).scores)
    ensures r.Some? ==> (OccursAt(pattern, b.scores, r.value) &&
      forall k: nat :: k < r.value ==> !OccursAt(pattern, b.scores, k))
    ensures r.None? ==> Absent(pattern, b.scores)
  {
    b := new Board();
    rounds := 0;
    r := b.Find(pattern);
    NoEarlierStart(pattern, b.scores, r);
    while r.None? && rounds < fuel
      invariant b.Valid()
      invariant rounds <= fuel && Kitchen(b.scores, b.current) == Cooked(rounds)
      invariant AbsentBefore(pattern, rounds)
      invariant r.None? ==> Absent(pattern, b.scores)
      invariant r.Some? ==> FirstAt(pattern, b.scores, r.value)
      decreases fuel - rounds
    {
      r := CookAndFind(b, pattern);
      rounds := rounds + 1;
    }
  }

  /** The pattern appeared on none of the boards of the first `n` rounds. */
  ghost predicate AbsentBefore(pattern: seq<nat>, n: nat)
  {
    forall j :: 0 <= j < n ==> Absent(pattern, Cooked(j).scores)
  }

  /** The pattern occurs at `i` and at no earlier start. */
  ghost predicate FirstAt(pattern: seq<nat>, scores: seq<nat>, i: nat)
  {
    OccursAt(pattern, scores, i) && forall k: nat :: k < i ==> !OccursAt(pattern, scores, k)
  }

  /** One turn of the driver loop: cook a round, then run the corrected
      `find`. As the pattern was absent before the round, what `find`
      reports is its first occurrence on the new board. */
  method CookAndFind(b: Board, pattern: seq<nat>) returns (r: Option<nat>)
    requires |pattern| >= 1 && b.Valid() && Absent(pattern, b.scores)
    modifies b
    ensures b.Valid()
    ensures Kitchen(b.scores, b.current) == Cook(old(Kitchen(b.scores, b.current)))
    ensures r.None? ==> Absent(pattern, b.scores)
    ensures r.Some? ==> FirstAt(pattern, b.scores, r.value)
  {
    ghost var before := b.scores;
    ghost var t := Total(b.scores, b.current);
    b.CookAndMove();
    Grown(before, b.scores, t);
    r := b.Find(pattern);
    if r.Some? {
      forall k: nat | k < r.value
        ensures !OccursAt(pattern, b.scores, k)
      {
        if OccursAt(pattern, b.scores, k) {
          NewStartsInWindow(pattern, before, b.scores, k);
        }
      }
    } else {
      forall k: nat ensures !OccursAt(pattern, b.scores, k) {
        if OccursAt(pattern, b.scores, k) {
          NewStartsInWindow(pattern, before, b.scores, k);
        }
      }
    }
  }

  /** The first search on `[3, 7]` sees every possible start. */
  lemma NoEarlierStart(pattern: seq<nat>, scores: seq<nat>, r: Option<nat>)
    requires |pattern| >= 1 && |scores| == 2 && r == FindSpec(pattern, scores)
    ensures r.None? ==> forall k: nat :: !OccursAt(pattern, scores, k)
    ensures r.Some? ==> forall k: nat :: k < r.value ==> !OccursAt(pattern, scores, k)
  {
    forall k: nat | OccursAt(pattern, scores, k)
      ensures InWindow(2, |pattern|, k)
    {
      OccursAtFits(pattern, scores, k);
    }
  }

  /** A round adds one or two digits behind the old board. */
  lemma Grown(before: seq<nat>, after: seq<nat>, t: nat)
    requires after == before + Digits(t) && t <= 18
    ensures |before| < |after| <= |before| + 2 && before == after[..|before|]
  {
    DigitsOfSmallSum(t);
  }

  /** The board grows by one or two digits per round and the corrected
      window slides with it: a start at which the pattern occurs on the
      grown board either already held on the old board or lies in the new
      window. This is why calling the corrected `find` after every round
      misses no occurrence. */
  lemma {:induction false} NewStartsInWindow(pattern: seq<nat>, before: seq<nat>, after: seq<nat>, k: nat)
    requires |pattern| >= 1 && |before| < |after| <= |before| + 2 && before == after[..|before|]
    requires OccursAt(pattern, after, k)
    ensures OccursAt(pattern, before, k) || InWindow(|after|, |pattern|, k)
  {
    OccursAtFits(pattern, after, k);
    if k + |pattern| <= |before| {
      forall j: nat | j < |pattern|
        ensures k + j < |before| && before[k + j] == pattern[j]
      {
        assert after[k + j] == pattern[j];
      }
    }
  }
}
