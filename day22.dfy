/** A cave of rocky, wet and narrow regions whose types follow from
    geologic indices and erosion levels; a rescuer walks from the mouth to
    the target, switching between a torch, climbing gear and neither, and
    the fastest way is searched with a priority queue of buckets. */
module ModeMaze {
  import opened Wrappers

  const Modulus := 20_183
  const Rocky := 0
  const Wet := 1
  const Narrow := 2

  // ---------------------------------------------------------------------
  // Regions.

  /** `erosion_level`. */
  function Erosion(gi: int, depth: int): int
  {
    (gi + depth) % Modulus
  }

  /** `type`: the erosion level modulo 3. */
  function TypeOf(erosion: int): int
  {
    erosion % 3
  }

  lemma TypeInRange(gi: int, depth: int)
    ensures 0 <= Erosion(gi, depth) < Modulus
    ensures TypeOf(Erosion(gi, depth)) in {Rocky, Wet, Narrow}
  {
  }

  datatype Tool = Torch | ClimbingGear | Neither

  const Tools: seq<Tool> := [Torch, ClimbingGear, Neither]

  /** `can_use?`: rocky regions forbid neither, wet ones the torch, narrow
      ones the climbing gear; any other type gives `nil`. */
  function CanUse(t: int, tool: Tool): bool
  {
    if t == Rocky then tool != Neither
    else if t == Wet then tool != Torch
    else if t == Narrow then tool != ClimbingGear
    else false
  }

  function Usable(t: int): nat
  {
    (if CanUse(t, Torch) then 1 else 0) + (if CanUse(t, ClimbingGear) then 1 else 0) +
    (if CanUse(t, Neither) then 1 else 0)
  }

  /** Each region type allows exactly two of the three tools, and two
      different types share exactly one. */
  lemma TwoToolsEach(a: int, b: int)
    requires a in {Rocky, Wet, Narrow} && b in {Rocky, Wet, Narrow}
    ensures Usable(a) == 2
    ensures a != b ==> (exists tool :: (CanUse(a, tool) && CanUse(b, tool) &&
      forall other :: other != tool ==> !(CanUse(a, other) && CanUse(b, other))))
  {
    if a != b {
      var shared := if a != Rocky && b != Rocky then Neither else if a != Wet && b != Wet then Torch else ClimbingGear;
      assert CanUse(a, shared) && CanUse(b, shared);
    }
  }

  /** `geologic_index`: zero at the mouth and the target, `x * 16807` on
      the top row, `y * 48271` on the left column, and otherwise the
      product of the erosion levels to the left and above. */
  function GeologicIndex(depth: int, tx: int, ty: int, x: nat, y: nat): int
    decreases x + y
  {
    if (x == 0 && y == 0) || (x == tx && y == ty) then 0
    else if y == 0 then x * 16_807
    else if x == 0 then y * 48_271
    else Erosion(GeologicIndex(depth, tx, ty, x - 1, y), depth) * Erosion(GeologicIndex(depth, tx, ty, x, y - 1), depth)
  }

  /** `risk`: the type, except zero at the mouth and the target. */
  function Risk(depth: int, tx: int, ty: int, x: nat, y: nat): (r: int)
    ensures 0 <= r <= 2
  {
    if (x == 0 && y == 0) || (x == tx && y == ty) then 0
    else TypeOf(Erosion(GeologicIndex(depth, tx, ty, x, y), depth))
  }

  /** The risk of columns `0 <= x < xhi` of row `y`. */
  function RowRisk(depth: int, tx: int, ty: int, y: nat, xhi: nat): int
  {
    if xhi == 0 then 0 else RowRisk(depth, tx, ty, y, xhi - 1) + Risk(depth, tx, ty, xhi - 1, y)
  }

  /** The risk of rows `0 <= y < yhi`, columns `0 <= x <= tx`. */
  function AreaRisk(depth: int, tx: nat, ty: int, yhi: nat): int
  {
    if yhi == 0 then 0 else AreaRisk(depth, tx, ty, yhi - 1) + RowRisk(depth, tx, ty, yhi - 1, tx + 1)
  }

  lemma {:induction false} RowRiskBound(depth: int, tx: int, ty: int, y: nat, xhi: nat)
    ensures 0 <= RowRisk(depth, tx, ty, y, xhi) <= 2 * xhi
  {
    if xhi > 0 {
      RowRiskBound(depth, tx, ty, y, xhi - 1);
    }
  }

  /** Every region risks between 0 and 2, so the total risk of the
      rectangle up to the target is at most twice its area. */
  lemma {:induction false} AreaRiskBound(depth: int, tx: nat, ty: int, yhi: nat)
    ensures 0 <= AreaRisk(depth, tx, ty, yhi) <= 2 * (tx + 1) * yhi
  {
    if yhi > 0 {
      AreaRiskBound(depth, tx, ty, yhi - 1);
      RowRiskBound(depth, tx, ty, yhi - 1, tx + 1);
      var w := 2 * (tx + 1);
      assert w * (yhi - 1) + w == w * yhi;
    }
  }

  // ---------------------------------------------------------------------
  // The priority queue.

  /** `State`: a region (by coordinates), the time and the tool. */
  datatype State = State(x: int, y: int, time: int, tool: Tool)

  /** A set that is not empty has an element. */
  lemma HasElement(s: set<int>)
    requires s != {}
    ensures exists k :: k in s
  {
    if forall k :: k !in s {
      assert false;
    }
  }

  /** A finite set of integers that is not empty has a least element. */
  lemma {:induction false} MinExists(s: set<int>)
    requires s != {}
    ensures exists k :: k in s && forall j :: j in s ==> k <= j
  {
    HasElement(s);
    var k :| k in s;
    if s == {k} {
      assert forall j :: j in s ==> j == k;
    } else {
      assert s - {k} != {};
      MinExists(s - {k});
      var m :| m in s - {k} && forall j :: j in s - {k} ==> m <= j;
      var least := if k < m then k else m;
      forall j | j in s
        ensures least <= j
      {
        if j != k {
          assert j in s - {k};
        }
      }
    }
  }

  /** A map with an entry has a key. */
  lemma NonEmptyKeys(m: map<int, seq<State>>)
    requires m != map[]
    ensures m.Keys != {}
  {
    if forall k :: k !in m {
      assert false;
    }
  }

  /** `@queues.keys.min`. */
  ghost function MinKey(m: map<int, seq<State>>): (k: int)
    requires m != map[]
    ensures k in m && forall j :: j in m ==> k <= j
  {
    NonEmptyKeys(m);
    MinExists(m.Keys);
    var k :| k in m && forall j :: j in m ==> k <= j; k
  }

  /** The buckets after the first element of bucket `p` leaves; an
      emptied bucket is deleted. */
  function Pop(m: map<int, seq<State>>, p: int): map<int, seq<State>>
    requires p in m && m[p] != []
  {
    if |m[p]| == 1 then m - {p} else m[p := m[p][1..]]
  }

  /** The buckets after `e` joins the back of bucket `p`. */
  function Push(m: map<int, seq<State>>, e: State, p: int): map<int, seq<State>>
  {
    m[p := (if p in m then m[p] else []) + [e]]
  }

  /** A state of minimum priority that entered first leaves first: when
      the new element is pushed behind an element of lower priority, it
      comes out of the queue later. */
  lemma PushThenPop(m: map<int, seq<State>>, e: State, p: int)
    requires forall q :: q in m ==> m[q] != []
    requires m != map[] && MinKey(m) <= p
    ensures MinKey(Push(m, e, p)) == MinKey(m)
    ensures Push(m, e, p)[MinKey(m)][0] == m[MinKey(m)][0]
    ensures Pop(Push(m, e, p), MinKey(m)) == Push(Pop(m, MinKey(m)), e, p)
  {
    var k := MinKey(m);
    var pushed := Push(m, e, p);
    assert k in pushed && forall j :: j in pushed ==> k <= j;
    assert MinKey(pushed) == k;
    if p == k {
      assert (m[k] + [e])[1..] == m[k][1..] + [e];
    }
  }

  class PriorityQueue {
    var queues: map<int, seq<State>>

    /** No bucket is empty. */
    ghost predicate Valid()
      reads this
    {
      forall p :: p in queues ==> queues[p] != []
    }

    constructor()
      ensures Valid() && queues == map[]
    {
      queues := map[];
    }

    /** `enqueue`: behind the elements of the same priority. */
    method Enqueue(e: State, priority: int)
      requires Valid()
      modifies this
      ensures Valid() && queues == Push(old(queues), e, priority)
    {
      var queue := if priority in queues then queues[priority] else [];
      queue := queue + [e];
      queues := queues[priority := queue];
    }

    /** `keys.min`. */
    method LowestPriority() returns (p: int)
      requires queues != map[]
      ensures p == MinKey(queues)
    {
      var keys := queues.Keys;
      NonEmptyKeys(queues);
      HasElement(keys);
      p :| p in keys;
      keys := keys - {p};
      while keys != {}
        invariant p in queues && keys <= queues.Keys
        invariant forall j :: j in queues && j !in keys ==> p <= j
        decreases keys
      {
        HasElement(keys);
        var k :| k in keys;
        if k < p {
          p := k;
        }
        keys := keys - {k};
      }
    }

    /** `dequeue`: the first element of the lowest bucket, which is deleted
        once empty; on an empty queue Ruby raises. */
    method Dequeue() returns (r: Result<State>)
      requires Valid()
      modifies this
      ensures Valid()
      ensures r.Fail? <==> old(queues) == map[]
      ensures r.Fail? ==> queues == old(queues)
      ensures r.Ok? ==> (old(queues) != map[] && r.value == old(queues)[MinKey(old(queues))][0] &&
        queues == Pop(old(queues), MinKey(old(queues))))
    {
      if queues == map[] {
        return Fail("NoMethodError");
      }
      var highest := LowestPriority();
      var queue := queues[highest];
      var element := queue[0];
      queue := queue[1..];
      if queue == [] {
        queues := queues - {highest};
      } else {
        queues := queues[highest := queue];
      }
      return Ok(element);
    }
  }

  // ---------------------------------------------------------------------
  // Steps of the search.

  /** A step from state `s` to region `(x, y)` with `tool`: a move to a
      neighbour with the same tool costs one minute, a switch to another
      tool in the same region costs seven. */
  predicate Step(s: State, x: int, y: int, tool: Tool, cost: int)
  {
    if cost == 1 then tool == s.tool && ((x == s.x && (y == s.y + 1 || y == s.y - 1)) || (y == s.y && (x == s.x + 1 || x == s.x - 1)))
    else cost == 7 && x == s.x && y == s.y && tool != s.tool
  }

  /** From `before` to `after`, recorded fastest times only improve, and
      every changed or new one is reached by a step of `cost` from `s`. */
  predicate Improved(before: map<(int, int, Tool), int>, after: map<(int, int, Tool), int>, s: State, cost: int)
  {
    (forall k :: k in before ==> k in after && after[k] <= before[k]) &&
    forall k :: k in after ==> (k in before && after[k] == before[k]) || (after[k] == s.time + cost && Step(s, k.0, k.1, k.2, cost))
  }

  /** One `add_to_queue` along a step records a better time or nothing. */
  lemma ImprovedByAdd(before: map<(int, int, Tool), int>, after: map<(int, int, Tool), int>, s: State, x: int, y: int, tool: Tool, cost: int)
    requires Step(s, x, y, tool, cost)
    requires after == before || (after == before[(x, y, tool) := s.time + cost] &&
      ((x, y, tool) in before ==> s.time + cost < before[(x, y, tool)]))
    ensures Improved(before, after, s, cost)
  {
  }

  lemma ImprovedTrans(a: map<(int, int, Tool), int>, b: map<(int, int, Tool), int>, c: map<(int, int, Tool), int>, s: State, cost: int)
    requires Improved(a, b, s, cost) && Improved(b, c, s, cost)
    ensures Improved(a, c, s, cost)
  {
  }

  /** The recorded fastest times and the buckets of the queue. */
  datatype Ledger = Ledger(fastest: map<(int, int, Tool), int>, queues: map<int, seq<State>>)

  /** The neighbours of `add_movements`, down, right, up and left, each
      with the tool of `s`. */
  function MoveTargets(s: State): (r: seq<(int, int, Tool)>)
    ensures |r| == 4
    ensures forall i :: 0 <= i < 4 ==> r[i].2 == s.tool && Step(s, r[i].0, r[i].1, s.tool, 1)
    ensures forall i, j :: 0 <= i < j < 4 ==> r[i] != r[j]
  {
    [(s.x, s.y + 1, s.tool), (s.x + 1, s.y, s.tool), (s.x, s.y - 1, s.tool), (s.x - 1, s.y, s.tool)]
  }

  /** The switches of `add_tool_switches` among the first `n` tools: the
      region of `s` with each tool other than its own, in order. */
  function SwitchTargets(s: State, n: nat): (r: seq<(int, int, Tool)>)
    requires n <= |Tools|
    ensures forall i :: 0 <= i < |r| ==> Step(s, r[i].0, r[i].1, r[i].2, 7) && r[i].2 in Tools[..n]
    ensures forall t :: t in Tools[..n] && t != s.tool ==> (s.x, s.y, t) in r
    ensures forall i, j :: 0 <= i < j < |r| ==> r[i] != r[j]
  {
    if n == 0 then []
    else SwitchTargets(s, n - 1) + (if Tools[n - 1] != s.tool then [(s.x, s.y, Tools[n - 1])] else [])
  }

  // ---------------------------------------------------------------------
  // The cave.

  /** Column `x` of the cave holds the geologic indices. */
  ghost predicate ColumnMapped(cave: array2<int>, depth: int, tx: int, ty: int, x: nat)
    requires x < cave.Length0
    reads cave
  {
    forall y :: 0 <= y < cave.Length1 ==> cave[x, y] == GeologicIndex(depth, tx, ty, x, y)
  }

  /** Column `x` of `map_cave`, top to bottom: each region's geologic index
      from the regions to its left and above, already mapped. */
  method MapColumn(cave: array2<int>, depth: int, tx: int, ty: int, x: nat)
    requires x < cave.Length0
    requires x > 0 ==> ColumnMapped(cave, depth, tx, ty, x - 1)
    modifies cave
    ensures ColumnMapped(cave, depth, tx, ty, x)
    ensures forall x', y :: 0 <= x' < cave.Length0 && 0 <= y < cave.Length1 && x' != x ==> cave[x', y] == old(cave[x', y])
  {
    for y := 0 to cave.Length1
      invariant forall y' :: 0 <= y' < y ==> cave[x, y'] == GeologicIndex(depth, tx, ty, x, y')
      invariant forall x', y' :: 0 <= x' < cave.Length0 && 0 <= y' < cave.Length1 && x' != x ==> cave[x', y'] == old(cave[x', y'])
    {
      if (x == 0 && y == 0) || (x == tx && y == ty) {
        cave[x, y] := 0;
      } else if y == 0 {
        cave[x, y] := x * 16_807;
      } else if x == 0 {
        cave[x, y] := y * 48_271;
      } else {
        cave[x, y] := Erosion(cave[x - 1, y], depth) * Erosion(cave[x, y - 1], depth);
      }
    }
  }

  /** `map_cave`: every region's geologic index, column by column. */
  method MapCave(cave: array2<int>, depth: int, tx: int, ty: int)
    modifies cave
    ensures forall x, y :: 0 <= x < cave.Length0 && 0 <= y < cave.Length1 ==> cave[x, y] == GeologicIndex(depth, tx, ty, x, y)
  {
    for x := 0 to cave.Length0
      invariant forall x', y :: 0 <= x' < x && 0 <= y < cave.Length1 ==> cave[x', y] == GeologicIndex(depth, tx, ty, x', y)
    {
      MapColumn(cave, depth, tx, ty, x);
    }
  }

  class Cave {
    const depth: int
    const targetX: nat
    const targetY: nat
    const maxX: nat
    const maxY: nat
    /** The geologic index of every region, `@cave[x][y]`. */
    const geologic: array2<int>
    /** `@fastest_times` of every region, by region and tool. */
    var fastest: map<(int, int, Tool), int>
    var stateQueue: PriorityQueue

    ghost predicate Mapped()
      reads this, geologic
    {
      maxX == targetX + 100 && maxY == targetY + 100 &&
      geologic.Length0 == maxX + 1 && geologic.Length1 == maxY + 1 &&
      forall x, y :: 0 <= x <= maxX && 0 <= y <= maxY ==> geologic[x, y] == GeologicIndex(depth, targetX, targetY, x, y)
    }

    /** `Cave.new` and `map_cave`: the regions reach 100 beyond the target
        in both directions. */
    constructor(depth: int, targetX: nat, targetY: nat)
      ensures Mapped() && this.depth == depth && this.targetX == targetX && this.targetY == targetY
      ensures fastest == map[] && stateQueue.Valid() && stateQueue.queues == map[]
    {
      this.depth, this.targetX, this.targetY := depth, targetX, targetY;
      maxX, maxY := targetX + 100, targetY + 100;
      var cave := new int[targetX + 101, targetY + 101];
      MapCave(cave, depth, targetX, targetY);
      geologic := cave;
      fastest := map[];
      stateQueue := new PriorityQueue();
    }

    /** The type of region `(x, y)`. */
    function RegionType(x: int, y: int): int
      requires 0 <= x <= maxX && 0 <= y <= maxY && geologic.Length0 == maxX + 1 && geologic.Length1 == maxY + 1
      reads geologic
    {
      TypeOf(Erosion(geologic[x, y], depth))
    }

    /** `total_risk`: the risks of all regions from the mouth to the
        target. */
    method TotalRisk() returns (risk: int)
      requires Mapped()
      ensures risk == AreaRisk(depth, targetX, targetY, targetY + 1)
    {
      risk := 0;
      for y := 0 to targetY + 1
        invariant risk == AreaRisk(depth, targetX, targetY, y)
      {
        for x := 0 to targetX + 1
          invariant risk == AreaRisk(depth, targetX, targetY, y) + RowRisk(depth, targetX, targetY, y, x)
        {
          var r := if (x == 0 && y == 0) || (x == targetX && y == targetY) then 0 else RegionType(x, y);
          risk := risk + r;
        }
      }
    }

    /** `fastest_time?`: no time recorded yet, or a strictly smaller one. */
    function FastestTime(x: int, y: int, time: int, tool: Tool): bool
      reads this
    {
      (x, y, tool) in fastest ==> time < fastest[(x, y, tool)]
    }

    /** The condition of `add_to_queue` against recorded times `fast`:
        region `(c.0, c.1)` is in the cave, allows tool `c.2`, and `time`
        beats any time recorded for it. */
    predicate Admits(fast: map<(int, int, Tool), int>, c: (int, int, Tool), time: int)
      requires geologic.Length0 == maxX + 1 && geologic.Length1 == maxY + 1
      reads geologic
    {
      0 <= c.0 <= maxX && 0 <= c.1 <= maxY && CanUse(RegionType(c.0, c.1), c.2) && (c in fast ==> time < fast[c])
    }

    /** What `add_to_queue` makes of the recorded times and the buckets. */
    function Offer(l: Ledger, c: (int, int, Tool), time: int): Ledger
      requires geologic.Length0 == maxX + 1 && geologic.Length1 == maxY + 1
      reads geologic
    {
      if Admits(l.fastest, c, time) then Ledger(l.fastest[c := time], Push(l.queues, State(c.0, c.1, time, c.2), time))
      else l
    }

    /** `add_to_queue` on each of `cs` in turn, all at `time`. */
    function OfferAll(l: Ledger, cs: seq<(int, int, Tool)>, time: int): Ledger
      requires geologic.Length0 == maxX + 1 && geologic.Length1 == maxY + 1
      reads geologic
    {
      if cs == [] then l else Offer(OfferAll(l, cs[..|cs| - 1], time), cs[|cs| - 1], time)
    }

    /** Offering one more of `cs`. */
    lemma OfferNext(l: Ledger, cs: seq<(int, int, Tool)>, i: nat, time: int)
      requires geologic.Length0 == maxX + 1 && geologic.Length1 == maxY + 1
      requires i < |cs|
      ensures OfferAll(l, cs[..i + 1], time) == Offer(OfferAll(l, cs[..i], time), cs[i], time)
    {
      assert cs[..i + 1][..i] == cs[..i];
    }

    /** Offering the switch to one more tool, if it is another. */
    lemma OfferNextTool(l: Ledger, s: State, i: nat)
      requires geologic.Length0 == maxX + 1 && geologic.Length1 == maxY + 1
      requires i < |Tools|
      ensures OfferAll(l, SwitchTargets(s, i + 1), s.time + 7) ==
        if Tools[i] != s.tool then Offer(OfferAll(l, SwitchTargets(s, i), s.time + 7), (s.x, s.y, Tools[i]), s.time + 7)
        else OfferAll(l, SwitchTargets(s, i), s.time + 7)
    {
      var cs := SwitchTargets(s, i + 1);
      if Tools[i] != s.tool {
        assert cs[..|cs| - 1] == SwitchTargets(s, i);
      } else {
        assert SwitchTargets(s, i + 1) == SwitchTargets(s, i);
      }
    }

    /** Offering distinct regions and tools in turn: each one's time is
        recorded exactly when `add_to_queue`'s condition held for it
        beforehand, and every other recorded time stays. */
    lemma {:induction false} OfferAllExact(l: Ledger, cs: seq<(int, int, Tool)>, time: int)
      requires geologic.Length0 == maxX + 1 && geologic.Length1 == maxY + 1
      requires forall i, j :: 0 <= i < j < |cs| ==> cs[i] != cs[j]
      ensures forall k :: k in OfferAll(l, cs, time).fastest <==> k in l.fastest || (k in cs && Admits(l.fastest, k, time))
      ensures forall k :: k in OfferAll(l, cs, time).fastest ==>
        OfferAll(l, cs, time).fastest[k] == if k in cs && Admits(l.fastest, k, time) then time else l.fastest[k]
    {
      if cs != [] {
        var init := cs[..|cs| - 1];
        var c := cs[|cs| - 1];
        OfferAllExact(l, init, time);
        assert forall k :: k in cs <==> k in init || k == c;
      }
    }

    /** Every queued state lies in the cave, uses a tool its region allows,
        sits in the bucket of its time, and its time is recorded as that
        region's fastest with that tool, or beaten since. */
    ghost predicate Queued()
      reads this, geologic, stateQueue
    {
      Mapped() && stateQueue.Valid() &&
      forall p, i :: p in stateQueue.queues && 0 <= i < |stateQueue.queues[p]| ==>
        var s := stateQueue.queues[p][i];
        s.time == p && 0 <= s.x <= maxX && 0 <= s.y <= maxY && CanUse(RegionType(s.x, s.y), s.tool) &&
        (s.x, s.y, s.tool) in fastest && fastest[(s.x, s.y, s.tool)] <= p
    }

    /** No queued state is earlier than `time`. */
    ghost predicate KeysFrom(time: int)
      reads this, stateQueue
    {
      forall p :: p in stateQueue.queues ==> time <= p
    }

    /** `add_to_queue`, with `region_at`'s bounds check folded in: a state
        is queued only for a region of the cave, a tool it allows and a
        time better than any recorded one, and that time is recorded. */
    method AddToQueue(x: int, y: int, time: int, tool: Tool) returns (added: bool)
      requires Queued()
      modifies this, stateQueue
      ensures Queued() && stateQueue == old(stateQueue)
      ensures added <==> 0 <= x <= maxX && 0 <= y <= maxY && CanUse(RegionType(x, y), tool) && old(FastestTime(x, y, time, tool))
      ensures added ==> (fastest == old(fastest)[(x, y, tool) := time] &&
        stateQueue.queues == Push(old(stateQueue.queues), State(x, y, time, tool), time))
      ensures !added ==> fastest == old(fastest) && stateQueue.queues == old(stateQueue.queues)
      ensures Ledger(fastest, stateQueue.queues) == Offer(old(Ledger(fastest, stateQueue.queues)), (x, y, tool), time)
    {
      if 0 <= x <= maxX && 0 <= y <= maxY && CanUse(RegionType(x, y), tool) && FastestTime(x, y, time, tool) {
        fastest := fastest[(x, y, tool) := time];
        stateQueue.Enqueue(State(x, y, time, tool), time);
        return true;
      }
      return false;
    }

    /** `add_to_queue` along one step of `cost` from `s`: the times
        recorded since `before` still only improve along such steps. */
    method AddStep(s: State, c: (int, int, Tool), cost: int, ghost before: map<(int, int, Tool), int>)
      requires Queued() && KeysFrom(s.time) && Improved(before, fastest, s, cost)
      requires cost >= 0 && Step(s, c.0, c.1, c.2, cost)
      modifies this, stateQueue
      ensures Queued() && KeysFrom(s.time) && stateQueue == old(stateQueue)
      ensures Improved(before, fastest, s, cost)
      ensures Ledger(fastest, stateQueue.queues) == Offer(old(Ledger(fastest, stateQueue.queues)), c, s.time + cost)
    {
      ghost var f := fastest;
      var _ := AddToQueue(c.0, c.1, s.time + cost, c.2);
      ImprovedByAdd(f, fastest, s, c.0, c.1, c.2, cost);
      ImprovedTrans(before, f, fastest, s, cost);
    }

    /** `add_movements`: one minute to each neighbour, in the order down,
        right, up, left, with the same tool; the recorded times and the
        buckets are those of `add_to_queue` on each neighbour in turn. */
    method AddMovements(s: State)
      requires Queued() && KeysFrom(s.time)
      modifies this, stateQueue
      ensures Queued() && KeysFrom(s.time) && stateQueue == old(stateQueue)
      ensures Improved(old(fastest), fastest, s, 1)
      ensures Ledger(fastest, stateQueue.queues) == OfferAll(old(Ledger(fastest, stateQueue.queues)), MoveTargets(s), s.time + 1)
    {
      var moves := [(s.x, s.y + 1), (s.x + 1, s.y), (s.x, s.y - 1), (s.x - 1, s.y)];
      ghost var start := Ledger(fastest, stateQueue.queues);
      for i := 0 to |moves|
        invariant Queued() && KeysFrom(s.time) && stateQueue == old(stateQueue)
        invariant Improved(old(fastest), fastest, s, 1)
        invariant Ledger(fastest, stateQueue.queues) == OfferAll(start, MoveTargets(s)[..i], s.time + 1)
      {
        AddStep(s, (moves[i].0, moves[i].1, s.tool), 1, old(fastest));
        OfferNext(start, MoveTargets(s), i, s.time + 1);
      }
      assert MoveTargets(s)[..|moves|] == MoveTargets(s);
    }

    /** One turn of `add_tool_switches`: the switch to `Tools[i]`, unless
        it is the tool of `s`. */
    method AddSwitch(s: State, i: nat, ghost before: map<(int, int, Tool), int>, ghost start: Ledger)
      requires i < |Tools| && Queued() && KeysFrom(s.time) && Improved(before, fastest, s, 7)
      requires Ledger(fastest, stateQueue.queues) == OfferAll(start, SwitchTargets(s, i), s.time + 7)
      modifies this, stateQueue
      ensures Queued() && KeysFrom(s.time) && stateQueue == old(stateQueue)
      ensures Improved(before, fastest, s, 7)
      ensures Ledger(fastest, stateQueue.queues) == OfferAll(start, SwitchTargets(s, i + 1), s.time + 7)
    {
      OfferNextTool(start, s, i);
      if Tools[i] != s.tool {
        AddStep(s, (s.x, s.y, Tools[i]), 7, before);
      }
    }

    /** `add_tool_switches`: seven minutes to change to each other tool,
        in the order of `Tools`; the recorded times and the buckets are
        those of `add_to_queue` on each other tool in turn. */
    method AddToolSwitches(s: State)
      requires Queued() && KeysFrom(s.time)
      modifies this, stateQueue
      ensures Queued() && KeysFrom(s.time) && stateQueue == old(stateQueue)
      ensures Improved(old(fastest), fastest, s, 7)
      ensures Ledger(fastest, stateQueue.queues) == OfferAll(old(Ledger(fastest, stateQueue.queues)), SwitchTargets(s, |Tools|), s.time + 7)
    {
      ghost var start := Ledger(fastest, stateQueue.queues);
      for i := 0 to |Tools|
        invariant Queued() && KeysFrom(s.time) && stateQueue == old(stateQueue)
        invariant Improved(old(fastest), fastest, s, 7)
        invariant Ledger(fastest, stateQueue.queues) == OfferAll(start, SwitchTargets(s, i), s.time + 7)
      {
        AddSwitch(s, i, old(fastest), start);
      }
    }

    /** `search`, for at most `fuel` states: from the mouth with the torch
        until a state at the target holding the torch leaves the queue.
        `Fail` when the queue runs dry (Ruby raises), `None` when the fuel
        runs out. */
    method Search(fuel: nat) returns (r: Result<Option<State>>)
      requires Mapped()
      modifies this
      ensures Mapped()
      ensures r.Ok? && r.value.Some? ==>
        var s := r.value.value;
        s.x == targetX && s.y == targetY && s.tool == Torch && 0 <= s.time &&
        CanUse(RegionType(s.x, s.y), s.tool)
    {
      var queue := new PriorityQueue();
      stateQueue := queue;
      var _ := AddToQueue(0, 0, 0, Torch);
      var n, last := 0, 0;
      while n < fuel
        invariant Queued() && stateQueue == queue
        invariant 0 <= last && KeysFrom(last)
      {
        var next := queue.Dequeue();
        if next.Fail? {
          return Fail(next.reason);
        }
        var s := next.value;
        last := s.time;
        if s.x == targetX && s.y == targetY && s.tool == Torch {
          return Ok(Some(s));
        }
        AddMovements(s);
        AddToolSwitches(s);
        n := n + 1;
      }
      return Ok(None);
    }
  }
}
