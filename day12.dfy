/** A row of pots evolving generation by generation: each pot's next state
    is looked up from the five pots around it. Pot numbers may be negative;
    pot 0 sits at index 10 000 of a fixed array of 30 000 pots. */
module PotRow {
  import opened Wrappers

  const Offset := 10_000
  const Size := 30_000

  // ---------------------------------------------------------------------
  // Queries on the pot array as a sequence.

  /** `index`: the first position holding `c`, `nil` if none. */
  function FirstIndex(s: seq<char>, c: char): (r: Option<nat>)
    ensures r.None? <==> c !in s
    ensures r.Some? ==> r.value < |s| && s[r.value] == c && forall j :: 0 <= j < r.value ==> s[j] != c
  {
    if s == [] then None
    else if s[0] == c then Some(0)
    else
      var r := FirstIndex(s[1..], c);
      assert forall j :: 1 <= j < |s| ==> s[j] == s[1..][j - 1];
      if r.None? then None else Some(r.value + 1)
  }

  /** `rindex`: the last position holding `c`, `nil` if none. */
  function LastIndex(s: seq<char>, c: char): (r: Option<nat>)
    ensures r.None? <==> c !in s
    ensures r.Some? ==> r.value < |s| && s[r.value] == c && forall j :: r.value < j < |s| ==> s[j] != c
  {
    if s == [] then None
    else if s[|s| - 1] == c then Some(|s| - 1)
    else
      var r := LastIndex(s[..|s| - 1], c);
      assert forall j :: 0 <= j < |s| - 1 ==> s[j] == s[..|s| - 1][j];
      r
  }

  /** When there is a plant, the first plant is not after the last. */
  lemma FirstNotAfterLast(s: seq<char>)
    requires '#' in s
    ensures FirstIndex(s, '#').value <= LastIndex(s, '#').value
  {
    var l := LastIndex(s, '#').value;
    assert s[l] == '#';
  }

  /** The sum behind `pots_sum`: the pot numbers of the array positions
      that hold a plant. */
  function PlantSum(s: seq<char>): int
  {
    if s == [] then 0
    else PlantSum(s[..|s| - 1]) + (if s[|s| - 1] == '#' then |s| - 1 - Offset else 0)
  }

  /** Writing one pot changes the sum by that pot's number only. */
  lemma {:induction false} PlantSumUpdate(s: seq<char>, i: nat, c: char)
    requires i < |s|
    ensures PlantSum(s[i := c]) ==
      PlantSum(s) - (if s[i] == '#' then i - Offset else 0) + (if c == '#' then i - Offset else 0)
  {
    var n := |s| - 1;
    if i < n {
      PlantSumUpdate(s[..n], i, c);
      assert s[i := c][..n] == s[..n][i := c];
    } else {
      assert s[i := c][..n] == s[..n];
    }
  }

  /** No plant, no sum. */
  lemma {:induction false} PlantSumEmpty(s: seq<char>)
    requires '#' !in s
    ensures PlantSum(s) == 0
  {
    if s != [] {
      PlantSumEmpty(s[..|s| - 1]);
    }
  }

  // ---------------------------------------------------------------------
  // The pots.

  /** The array position of pot `pot` as Ruby resolves it: negative
      positions count from the end. */
  function Slot(pot: int): int
  {
    var p := pot + Offset;
    if p < 0 then p + Size else p
  }

  class Plants {
    var pots: array<char>

    ghost predicate Valid()
      reads this
    {
      pots.Length == Size
    }

    /** `Plants.new`: every pot empty. */
    constructor()
      ensures Valid() && fresh(pots)
      ensures forall i :: 0 <= i < Size ==> pots[i] == '.'
    {
      pots := new char[Size](_ => '.');
    }

    /** `plants[pot]`: `nil` beyond either end of the array. */
    function Get(pot: int): (r: Option<char>)
      requires Valid()
      reads this, pots
      ensures r.Some? <==> -Size <= pot + Offset < Size
      ensures r.Some? ==> r.value == pots[Slot(pot)]
    {
      var p := Slot(pot);
      if -Size <= pot + Offset < Size then Some(pots[p]) else None
    }

    /** `plants[pot] = value`, for a pot inside the array. */
    method Set(pot: int, value: char)
      requires Valid() && -Size <= pot + Offset < Size
      modifies pots
      ensures Valid() && pots[..] == old(pots[..])[Slot(pot) := value]
      ensures Get(pot) == Some(value)
    {
      pots[Slot(pot)] := value;
    }

    /** `first_plant`: `nil` (and the subtraction raises) without plants. */
    function FirstPlant(): (r: Result<int>)
      requires Valid()
      reads this, pots
      ensures r.Fail? <==> '#' !in pots[..]
      ensures r.Ok? ==> (0 <= r.value + Offset < Size && pots[r.value + Offset] == '#' &&
        forall j :: 0 <= j < r.value + Offset ==> pots[j] != '#')
    {
      var i := FirstIndex(pots[..], '#');
      if i.None? then Fail("NoMethodError") else Ok(i.value - Offset)
    }

    /** `last_plant`. */
    function LastPlant(): (r: Result<int>)
      requires Valid()
      reads this, pots
      ensures r.Fail? <==> '#' !in pots[..]
      ensures r.Ok? ==> (0 <= r.value + Offset < Size && pots[r.value + Offset] == '#' &&
        forall j :: r.value + Offset < j < Size ==> pots[j] != '#')
    {
      var i := LastIndex(pots[..], '#');
      if i.None? then Fail("NoMethodError") else Ok(i.value - Offset)
    }

    /** `pattern_at`: the pots `pot - 2 .. pot + 2`, for a pot at least two
        positions away from both array ends. */
    function PatternAt(pot: int): (r: seq<char>)
      requires Valid() && 2 <= pot + Offset <= Size - 3
      reads this, pots
      ensures |r| == 5 && forall k :: 0 <= k < 5 ==> Get(pot - 2 + k) == Some(r[k])
    {
      pots[pot + Offset - 2..pot + Offset + 3]
    }

    /** `pots_sum`. */
    function PotsSum(): int
      requires Valid()
      reads this, pots
    {
      PlantSum(pots[..])
    }
  }

  // ---------------------------------------------------------------------
  // One generation.

  /** The plants lie at least four positions away from both array ends,
      so every pattern read by one generation lies inside the array. */
  predicate Margin(s: seq<char>)
  {
    forall i :: 0 <= i < |s| && s[i] == '#' ==> 4 <= i < |s| - 4
  }

  /** The five pots around position `i`. */
  function Window(s: seq<char>, i: int): seq<char>
    requires 2 <= i && i + 3 <= |s|
  {
    s[i - 2..i + 3]
  }

  /** The generation step raises: there is no plant (`first_plant` is
      `nil`), or some pattern in the rewritten range is not a key of
      `spreads` (`fetch` raises). */
  predicate Rejects(s: seq<char>, spreads: map<seq<char>, char>)
    requires Margin(s)
  {
    '#' !in s ||
    exists i :: FirstIndex(s, '#').value - 2 <= i <= LastIndex(s, '#').value + 2 && Window(s, i) !in spreads
  }

  /** The new state of array position `i`: looked up from its pattern
      inside `[first - 2, last + 2]`, empty outside. */
  function NextAt(s: seq<char>, spreads: map<seq<char>, char>, i: int): char
    requires Margin(s) && !Rejects(s, spreads) && 0 <= i < |s|
  {
    if FirstIndex(s, '#').value - 2 <= i <= LastIndex(s, '#').value + 2 then spreads[Window(s, i)] else '.'
  }

  /** Plants of the next generation grow only within two pots of the
      current plants. */
  lemma NextStaysNear(s: seq<char>, spreads: map<seq<char>, char>, i: int)
    requires Margin(s) && !Rejects(s, spreads) && 0 <= i < |s| && NextAt(s, spreads, i) == '#'
    ensures FirstIndex(s, '#').value - 2 <= i <= LastIndex(s, '#').value + 2
  {
  }

  /** `next_generation`: a fresh row in which each pot from two before the
      first plant to two after the last takes the value `spreads` gives its
      pattern; the others stay empty. */
  method NextGeneration(plants: Plants, spreads: map<seq<char>, char>) returns (r: Result<Plants>)
    requires plants.Valid() && Margin(plants.pots[..])
    ensures r.Fail? <==> Rejects(plants.pots[..], spreads)
    ensures r.Ok? ==> (fresh(r.value) && fresh(r.value.pots) && r.value.Valid() &&
      forall i :: 0 <= i < Size ==> r.value.pots[i] == NextAt(plants.pots[..], spreads, i))
  {
    ghost var s := plants.pots[..];
    var first := plants.FirstPlant();
    if first.Fail? {
      return Fail("NoMethodError");
    }
    var last := plants.LastPlant();
    FirstNotAfterLast(s);
    var startPot, endPot := first.value - 2, last.value + 2;
    var next := new Plants();
    var pot := startPot;
    while pot <= endPot
      invariant startPot <= pot <= endPot + 1
      invariant next.Valid() && fresh(next) && fresh(next.pots)
      invariant forall i :: startPot + Offset <= i < pot + Offset ==> 2 <= i && i + 3 <= Size && Window(s, i) in spreads
      invariant forall i :: 0 <= i < Size ==> next.pots[i] == if startPot + Offset <= i < pot + Offset then spreads[Window(s, i)] else '.'
      decreases endPot - pot
    {
      var pattern := plants.PatternAt(pot);
      assert pattern == Window(s, pot + Offset);
      if pattern !in spreads {
        return Fail("KeyError");
      }
      next.Set(pot, spreads[pattern]);
      pot := pot + 1;
    }
    return Ok(next);
  }
}
