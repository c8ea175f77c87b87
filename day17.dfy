// Day 17: water falls from the spring at x = 500 through a scan of clay
// veins, one drop at a time, until ten drops in a row fall out of the
// scanned area.

module Reservoir {
  import opened Wrappers

  /** The way a drop last moved, also the side stored per cell. */
  datatype Direction = Down | Left | Right

  /** `left_or_right?` stores the other side. */
  function Flip(side: Direction): (r: Direction)
    ensures r != Down && r != side
  {
    if side == Left then Right else Left
  }

  /** Flipping a side twice restores it: the sides alternate. */
  lemma FlipTwice(side: Direction)
    requires side != Down
    ensures Flip(Flip(side)) == side
  {
  }

  /** The state of a `Drop` with its `Position`. */
  datatype DropState = DropState(x: int, y: int, direction: Direction, settled: bool, seenWall: bool)

  /** `Drop#down!`, `Drop#left!` and `Drop#right!`. */
  function MoveDown(d: DropState): DropState { d.(y := d.y + 1, direction := Down) }
  function MoveLeft(d: DropState): DropState { d.(x := d.x - 1, direction := Left) }
  function MoveRight(d: DropState): DropState { d.(x := d.x + 1, direction := Right) }

  /** The drop `run` lets fall: below the spring, going down. */
  function Spring(): DropState { DropState(500, 1, Down, false, false) }

  /** The bounds `initialize` computes; the grids are indexed `[x][y]` for
      `0 <= x <= xMax` and `0 <= y <= yMax`. */
  datatype Area = Area(xMin: int, xMax: int, yMin: int, yMax: int)

  /** The grids and the drop `run_drop` works on. */
  datatype Flow = Flow(cells: seq<seq<char>>, sides: seq<seq<Direction>>, drop: DropState)

  /** A cell water can enter: sand or water that flows. */
  predicate Free(c: char) { c == '.' || c == '|' }

  predicate Shaped<T>(g: seq<seq<T>>, w: int, h: int)
  {
    |g| == w && forall x :: 0 <= x < |g| ==> |g[x]| == h
  }

  /** The grids have the area's size, and the outer columns (at or left
      of `xMin`, and `xMax`) are free below row 0: no clay lies there and
      no water comes to rest there. */
  predicate Fits(a: Area, cells: seq<seq<char>>, sides: seq<seq<Direction>>)
  {
    && 0 <= a.xMin
    && Shaped(cells, a.xMax + 1, a.yMax + 1)
    && Shaped(sides, a.xMax + 1, a.yMax + 1)
    && forall x, y :: 0 <= x < |cells| && (x <= a.xMin || x == a.xMax) && 1 <= y <= a.yMax ==> Free(cells[x][y])
  }

  /** What holds of every drop `run_drop` handles: it is in the grid's
      columns below row 0, it never goes down having seen a wall, and it
      settles only strictly between the outer columns. */
  predicate Placed(a: Area, d: DropState)
  {
    && 0 <= d.x <= a.xMax && 1 <= d.y
    && (d.direction == Down ==> !d.seenWall)
    && (d.settled ==> a.xMin < d.x < a.xMax && d.y <= a.yMax)
  }

  /** `open?`: everything below `yMax` is open; otherwise sand and
      flowing water are. */
  function Open(a: Area, cells: seq<seq<char>>, x: int, y: int): bool
    requires Shaped(cells, a.xMax + 1, a.yMax + 1)
    requires y > a.yMax || (0 <= x <= a.xMax && 0 <= y)
  {
    y > a.yMax || Free(cells[x][y])
  }

  /** `at!`: one cell takes `c`. */
  function Mark<T>(g: seq<seq<T>>, x: int, y: int, c: T): (r: seq<seq<T>>)
    requires 0 <= x < |g| && 0 <= y < |g[x]|
    ensures |r| == |g| && r[x] == g[x][y := c]
    ensures forall i :: 0 <= i < |g| && i != x ==> r[i] == g[i]
  {
    g[x := g[x][y := c]]
  }

  /** The rank that `run_drop` lowers at each step: rows still to fall,
      then the phase, then the distance to the wall ahead. */
  function Height(a: Area, d: DropState): nat
  {
    if d.y <= a.yMax then a.yMax + 1 - d.y else 0
  }

  function Phase(d: DropState): nat
  {
    if d.settled then 0 else if d.direction == Down then 3 else if d.seenWall then 1 else 2
  }

  function Dist(a: Area, d: DropState): nat
  {
    if d.direction == Left && d.x >= 0 then d.x
    else if d.direction == Right && d.x <= a.xMax then a.xMax - d.x
    else 0
  }

  predicate Progress(a: Area, d: DropState, e: DropState)
  {
    || Height(a, e) < Height(a, d)
    || (Height(a, e) == Height(a, d) && Phase(e) < Phase(d))
    || (Height(a, e) == Height(a, d) && Phase(e) == Phase(d) && Dist(a, e) < Dist(a, d))
  }

  /** Only flowing water is written: every cell keeps its value or
      becomes `|`. */
  predicate FlowMarks(c: seq<seq<char>>, c': seq<seq<char>>)
  {
    && |c'| == |c|
    && forall x :: 0 <= x < |c| ==>
      && |c'[x]| == |c[x]|
      && forall y :: 0 <= y < |c[x]| ==> c'[x][y] == c[x][y] || c'[x][y] == '|'
  }

  /** A drop moving sideways has just left the cell behind it, which
      flows: turning back onto it is always possible. */
  predicate Trail(a: Area, f: Flow)
    requires Fits(a, f.cells, f.sides) && Placed(a, f.drop)
  {
    var d := f.drop;
    !d.settled && d.y <= a.yMax ==>
      && (d.direction == Left ==> d.x < a.xMax && Free(f.cells[d.x + 1][d.y]))
      && (d.direction == Right ==> 0 < d.x && Free(f.cells[d.x - 1][d.y]))
  }

  /** Everything `run_drop` keeps true of the grids and the drop. */
  predicate Good(a: Area, f: Flow)
  {
    Fits(a, f.cells, f.sides) && Placed(a, f.drop) && Trail(a, f)
  }

  /** A drop whose cell below is blocked is strictly inside the outer
      columns. */
  lemma BlockedInside(a: Area, cells: seq<seq<char>>, sides: seq<seq<Direction>>, x: int, y: int)
    requires Fits(a, cells, sides) && 0 <= x <= a.xMax && 0 <= y
    requires !Open(a, cells, x, y + 1)
    ensures a.xMin < x < a.xMax && y + 1 <= a.yMax
  {
  }

  /** What one step of `run_drop` guarantees: the invariant holds again,
      the rank drops, only flowing water is written, a drop that settles
      stays where it is, and one that moves enters an open cell next to
      or below it. */
  predicate Moved(a: Area, f: Flow, r: Flow)
    requires Good(a, f)
  {
    && Good(a, r)
    && Progress(a, f.drop, r.drop)
    && FlowMarks(f.cells, r.cells)
    && (r.drop.settled ==> r.drop == f.drop.(settled := true))
    && (!r.drop.settled ==> Open(a, f.cells, r.drop.x, r.drop.y))
    && -1 <= r.drop.x - f.drop.x <= 1 && f.drop.y <= r.drop.y <= f.drop.y + 1
  }

  /** One pass of the loop of `run_drop`. */
  function Step(a: Area, f: Flow): (r: Flow)
    requires Good(a, f)
    requires !f.drop.settled && f.drop.y <= a.yMax
    ensures Moved(a, f, r)
    ensures Open(a, f.cells, f.drop.x, f.drop.y + 1) ==> r.drop == MoveDown(f.drop.(seenWall := false))
    ensures r.drop.settled ==> !Open(a, f.cells, f.drop.x, f.drop.y + 1)
  {
    var d := f.drop;
    if Open(a, f.cells, d.x, d.y + 1) then
      Flow(Mark(f.cells, d.x, d.y, '|'), f.sides, MoveDown(d.(seenWall := false)))
    else
      BlockedInside(a, f.cells, f.sides, d.x, d.y);
      if d.direction == Down then Spread(a, f)
      else if d.direction == Left then KeepLeft(a, f)
      else KeepRight(a, f)
  }

  /** The step of a drop that came down onto something it cannot pass:
      it goes the way that is open, alternating per cell when both are,
      and settles when neither is. */
  function Spread(a: Area, f: Flow): (r: Flow)
    requires Good(a, f) && !f.drop.settled && f.drop.direction == Down
    requires a.xMin < f.drop.x < a.xMax && f.drop.y < a.yMax
    ensures Moved(a, f, r)
  {
    var d := f.drop;
    var marked := Mark(f.cells, d.x, d.y, '|');
    var canLeft := Open(a, f.cells, d.x - 1, d.y);
    var canRight := Open(a, f.cells, d.x + 1, d.y);
    if canLeft && canRight then
      var side := Flip(f.sides[d.x][d.y]);
      Flow(marked, Mark(f.sides, d.x, d.y, side), if side == Left then MoveLeft(d) else MoveRight(d))
    else if canLeft then Flow(marked, f.sides, MoveLeft(d.(seenWall := true)))
    else if canRight then Flow(marked, f.sides, MoveRight(d.(seenWall := true)))
    else Flow(f.cells, f.sides, d.(settled := true))
  }

  /** The step of a drop moving left over something it cannot pass: on
      while it can, else back once, else it settles. */
  function KeepLeft(a: Area, f: Flow): (r: Flow)
    requires Good(a, f) && !f.drop.settled && f.drop.direction == Left
    requires a.xMin < f.drop.x < a.xMax && f.drop.y < a.yMax
    ensures Moved(a, f, r)
  {
    var d := f.drop;
    if Open(a, f.cells, d.x - 1, d.y) then Flow(Mark(f.cells, d.x, d.y, '|'), f.sides, MoveLeft(d))
    else if d.seenWall then Flow(f.cells, f.sides, d.(settled := true))
    else Flow(Mark(f.cells, d.x, d.y, '|'), f.sides, MoveRight(d.(seenWall := true)))
  }

  /** The mirror image of `KeepLeft`. */
  function KeepRight(a: Area, f: Flow): (r: Flow)
    requires Good(a, f) && !f.drop.settled && f.drop.direction == Right
    requires a.xMin < f.drop.x < a.xMax && f.drop.y < a.yMax
    ensures Moved(a, f, r)
  {
    var d := f.drop;
    if Open(a, f.cells, d.x + 1, d.y) then Flow(Mark(f.cells, d.x, d.y, '|'), f.sides, MoveRight(d))
    else if d.seenWall then Flow(f.cells, f.sides, d.(settled := true))
    else Flow(Mark(f.cells, d.x, d.y, '|'), f.sides, MoveLeft(d.(seenWall := true)))
  }

  /** `run_drop`: the drop moves until it settles or falls below the scan;
      it always does, and it only ever writes flowing water. */
  function Fall(a: Area, f: Flow): (r: Flow)
    requires Good(a, f)
    ensures Good(a, r)
    ensures r.drop.settled || r.drop.y > a.yMax
    ensures FlowMarks(f.cells, r.cells)
    decreases Height(a, f.drop), Phase(f.drop), Dist(a, f.drop)
  {
    if f.drop.settled || f.drop.y > a.yMax then
      f
    else
      var g := Step(a, f);
      var r := Fall(a, g);
      assert FlowMarks(f.cells, r.cells) by {
        assert FlowMarks(f.cells, g.cells) && FlowMarks(g.cells, r.cells);
      }
      r
  }

  /** Cells change only into water, flowing or at rest. */
  predicate WaterMarks(c: seq<seq<char>>, c': seq<seq<char>>)
  {
    && |c'| == |c|
    && forall x :: 0 <= x < |c| ==>
      && |c'[x]| == |c[x]|
      && forall y :: 0 <= y < |c[x]| ==> c'[x][y] == c[x][y] || c'[x][y] == '|' || c'[x][y] == '~'
  }

  /** A drop that settles leaves the outer columns free of water at rest. */
  lemma SettleFits(a: Area, f: Flow)
    requires Good(a, f) && f.drop.settled
    ensures Fits(a, Mark(f.cells, f.drop.x, f.drop.y, '~'), f.sides)
    ensures WaterMarks(f.cells, Mark(f.cells, f.drop.x, f.drop.y, '~'))
  {
  }

  /** `run`: drops fall from the spring; a settled drop turns its cell
      into water at rest and resets the count of lost drops, a drop that
      falls out of the scan adds one to it, and ten lost drops in a row
      end the run. `None` when `fuel` drops are not enough. */
  function Pour(a: Area, cells: seq<seq<char>>, sides: seq<seq<Direction>>, lost: nat, fuel: nat): (r: Option<(seq<seq<char>>, seq<seq<Direction>>)>)
    requires Fits(a, cells, sides) && 500 <= a.xMax
    ensures r.Some? ==> Fits(a, r.value.0, r.value.1) && WaterMarks(cells, r.value.0)
    decreases fuel
  {
    if lost >= 10 then Some((cells, sides))
    else if fuel == 0 then None
    else
      var f := Fall(a, Flow(cells, sides, Spring()));
      if f.drop.settled then
        SettleFits(a, f);
        var r := Pour(a, Mark(f.cells, f.drop.x, f.drop.y, '~'), f.sides, 0, fuel - 1);
        assert r.Some? ==> WaterMarks(cells, r.value.0) by {
          assert WaterMarks(f.cells, Mark(f.cells, f.drop.x, f.drop.y, '~'));
        }
        r
      else
        var r := Pour(a, f.cells, f.sides, lost + 1, fuel - 1);
        r
  }

  /** The cells of row `y` from column `xMin` to `x` holding one of
      `kinds`. */
  function CountRow(a: Area, cells: seq<seq<char>>, kinds: set<char>, y: int, x: int): (r: nat)
    requires Shaped(cells, a.xMax + 1, a.yMax + 1) && 0 <= a.xMin && 0 <= y <= a.yMax && (x < a.xMin || x <= a.xMax)
    ensures r <= if x < a.xMin then 0 else x - a.xMin + 1
    decreases x - a.xMin
  {
    if x < a.xMin then 0
    else CountRow(a, cells, kinds, y, x - 1) + if cells[x][y] in kinds then 1 else 0
  }

  /** The cells of rows `yMin` to `y`, columns `xMin` to `xMax`, holding
      one of `kinds`. */
  function CountRows(a: Area, cells: seq<seq<char>>, kinds: set<char>, y: int): nat
    requires Shaped(cells, a.xMax + 1, a.yMax + 1) && 0 <= a.xMin && 0 <= a.yMin && (y < a.yMin || y <= a.yMax)
    decreases y - a.yMin
  {
    if y < a.yMin then 0
    else CountRows(a, cells, kinds, y - 1) + CountRow(a, cells, kinds, y, a.xMax)
  }

  /** Water in the scanned rectangle, flowing or at rest, and water at
      rest alone. */
  const Water: set<char> := {'~', '|'}
  const AtRest: set<char> := {'~'}

  /** Counting more kinds never counts fewer cells. */
  lemma {:induction false} CountRowMonotone(a: Area, cells: seq<seq<char>>, kinds: set<char>, more: set<char>, y: int, x: int)
    requires Shaped(cells, a.xMax + 1, a.yMax + 1) && 0 <= a.xMin && 0 <= y <= a.yMax && (x < a.xMin || x <= a.xMax)
    requires kinds <= more
    ensures CountRow(a, cells, kinds, y, x) <= CountRow(a, cells, more, y, x)
    decreases x - a.xMin
  {
    if x >= a.xMin {
      CountRowMonotone(a, cells, kinds, more, y, x - 1);
    }
  }

  lemma {:induction false} CountRowsMonotone(a: Area, cells: seq<seq<char>>, kinds: set<char>, more: set<char>, y: int)
    requires Shaped(cells, a.xMax + 1, a.yMax + 1) && 0 <= a.xMin && 0 <= a.yMin && (y < a.yMin || y <= a.yMax)
    requires kinds <= more
    ensures CountRows(a, cells, kinds, y) <= CountRows(a, cells, more, y)
    decreases y - a.yMin
  {
    if y >= a.yMin {
      CountRowsMonotone(a, cells, kinds, more, y - 1);
      CountRowMonotone(a, cells, kinds, more, y, a.xMax);
    }
  }

  /** `count_water_at_rest` never exceeds `count_water`. */
  lemma AtRestAtMostWater(a: Area, cells: seq<seq<char>>)
    requires Shaped(cells, a.xMax + 1, a.yMax + 1) && 0 <= a.xMin && 0 <= a.yMin
    ensures CountRows(a, cells, AtRest, a.yMax) <= CountRows(a, cells, Water, a.yMax)
  {
    CountRowsMonotone(a, cells, AtRest, Water, a.yMax);
  }

  /** A vein of clay: the cells `xFirst..xLast` by `yFirst..yLast`. */
  datatype Vein = Vein(xFirst: nat, xLast: nat, yFirst: nat, yLast: nat)

  predicate Covers(v: Vein, x: int, y: int)
  {
    v.xFirst <= x <= v.xLast && v.yFirst <= y <= v.yLast
  }

  predicate Clay(vs: seq<Vein>, x: int, y: int)
  {
    exists i :: 0 <= i < |vs| && Covers(vs[i], x, y)
  }

  /** The least and the greatest of a non-empty list. */
  function Least(s: seq<int>): (r: int)
    requires s != []
    ensures r in s && forall i :: 0 <= i < |s| ==> r <= s[i]
  {
    if |s| == 1 then s[0]
    else
      var m := Least(s[..|s| - 1]);
      assert s[..|s| - 1][0] == s[0];
      if s[|s| - 1] < m then s[|s| - 1] else m
  }

  function Most(s: seq<int>): (r: int)
    requires s != []
    ensures r in s && forall i :: 0 <= i < |s| ==> s[i] <= r
  {
    if |s| == 1 then s[0]
    else
      var m := Most(s[..|s| - 1]);
      if s[|s| - 1] > m then s[|s| - 1] else m
  }

  /** The bounds `initialize` computes from the veins: one column of
      margin on each side, the rows from the first to the last clay. */
  function ScanBounds(vs: seq<Vein>): (a: Area)
    requires vs != []
    ensures forall i :: 0 <= i < |vs| ==> a.xMin < vs[i].xFirst && vs[i].xLast < a.xMax
    ensures forall i :: 0 <= i < |vs| ==> a.yMin <= vs[i].yFirst && vs[i].yLast <= a.yMax
    ensures 0 <= a.yMin && 0 <= a.yMax && 0 < a.xMax
  {
    var xFirsts := Field(vs, (v: Vein) => v.xFirst);
    var xLasts := Field(vs, (v: Vein) => v.xLast);
    var yFirsts := Field(vs, (v: Vein) => v.yFirst);
    var yLasts := Field(vs, (v: Vein) => v.yLast);
    assert Least(yFirsts) <= vs[0].yFirst && vs[0].yLast <= Most(yLasts);
    Area(Least(xFirsts) - 1, Most(xLasts) + 1, Least(yFirsts), Most(yLasts))
  }

  /** One field of every vein, as `ranges.map` reads it. */
  function Field(vs: seq<Vein>, f: Vein -> nat): (r: seq<int>)
    ensures |r| == |vs| && forall i :: 0 <= i < |vs| ==> r[i] == f(vs[i])
  {
    if vs == [] then [] else Field(vs[..|vs| - 1], f) + [f(vs[|vs| - 1])]
  }

  /** The cell `initialize` leaves at `(x, y)`: clay over the spring `+`
      over sand. */
  function InitialCell(vs: seq<Vein>, x: int, y: int): char
  {
    if Clay(vs, x, y) then '#' else if x == 500 && y == 0 then '+' else '.'
  }

  /** A scan of sand only. */
  function Blank(a: Area): (r: seq<seq<char>>)
    requires 0 <= a.xMax && 0 <= a.yMax
    ensures Shaped(r, a.xMax + 1, a.yMax + 1)
  {
    seq(a.xMax + 1, x => seq(a.yMax + 1, y => '.'))
  }

  /** Every cell of `g` is the cell `initialize` paints from the veins `vs`. */
  ghost predicate PaintedWith(g: seq<seq<char>>, vs: seq<Vein>)
  {
    forall x, y :: 0 <= x < |g| && 0 <= y < |g[x]| ==> g[x][y] == InitialCell(vs, x, y)
  }

  /** Every vein ends left of column `xMax` and at most at row `yMax`. */
  predicate Inside(vs: seq<Vein>, xMax: int, yMax: int)
  {
    forall i :: 0 <= i < |vs| ==> vs[i].xLast < xMax && vs[i].yLast <= yMax
  }

  /** Sand with the spring is the scan before any vein is painted. */
  lemma StartCells(vs: seq<Vein>, a: Area)
    requires 500 <= a.xMax && 0 <= a.yMax
    ensures PaintedWith(Mark(Blank(a), 500, 0, '+'), vs[..0])
  {
  }

  function Initial(vs: seq<Vein>, a: Area): seq<seq<char>>
    requires 0 <= a.xMax && 0 <= a.yMax
  {
    seq(a.xMax + 1, x => seq(a.yMax + 1, y => InitialCell(vs, x, y)))
  }

  function InitialSides(a: Area): seq<seq<Direction>>
    requires 0 <= a.xMax && 0 <= a.yMax
  {
    seq(a.xMax + 1, x => seq(a.yMax + 1, y => Left))
  }

  /** No clay lies in the margin columns `initialize` adds. */
  lemma NoClayOutside(vs: seq<Vein>, x: int, y: int)
    requires vs != [] && (x <= ScanBounds(vs).xMin || x >= ScanBounds(vs).xMax)
    ensures !Clay(vs, x, y)
  {
    var a := ScanBounds(vs);
    forall i | 0 <= i < |vs|
      ensures !Covers(vs[i], x, y)
    {
      assert a.xMin < vs[i].xFirst && vs[i].xLast < a.xMax;
    }
  }

  /** The scan `initialize` builds meets the invariant of `run_drop`. */
  lemma InitialFits(vs: seq<Vein>)
    requires vs != [] && ScanBounds(vs).xMin >= 0
    ensures var a := ScanBounds(vs); Fits(a, Initial(vs, a), InitialSides(a))
  {
    var a := ScanBounds(vs);
    assert Shaped(Initial(vs, a), a.xMax + 1, a.yMax + 1) && Shaped(InitialSides(a), a.xMax + 1, a.yMax + 1);
    MarginsFree(vs, a);
  }

  lemma MarginsFree(vs: seq<Vein>, a: Area)
    requires vs != [] && a == ScanBounds(vs)
    ensures var cells := Initial(vs, a);
      forall x, y :: 0 <= x < |cells| && (x <= a.xMin || x == a.xMax) && 1 <= y <= a.yMax ==> Free(cells[x][y])
  {
    var cells := Initial(vs, a);
    forall x, y | 0 <= x < |cells| && (x <= a.xMin || x == a.xMax) && 1 <= y <= a.yMax
      ensures Free(cells[x][y])
    {
      NoClayOutside(vs, x, y);
      assert cells[x][y] == InitialCell(vs, x, y);
    }
  }

  /** Adding a vein adds the cells it covers to the clay. */
  lemma ClayAppend(vs: seq<Vein>, i: nat)
    requires i < |vs|
    ensures forall x, y :: Clay(vs[..i + 1], x, y) <==> Clay(vs[..i], x, y) || Covers(vs[i], x, y)
  {
    forall x, y
      ensures Clay(vs[..i + 1], x, y) <==> Clay(vs[..i], x, y) || Covers(vs[i], x, y)
    {
      if Clay(vs[..i + 1], x, y) {
        var k :| 0 <= k <= i && Covers(vs[..i + 1][k], x, y);
        if k < i {
          assert vs[..i][k] == vs[k];
        }
      }
      if Clay(vs[..i], x, y) {
        var k :| 0 <= k < i && Covers(vs[..i][k], x, y);
        assert vs[..i + 1][k] == vs[k];
      }
      if Covers(vs[i], x, y) {
        assert vs[..i + 1][i] == vs[i];
      }
    }
  }

  /** Two grids of the same shape with the same cells are equal. */
  lemma SameGrid<T>(g: seq<seq<T>>, h: seq<seq<T>>)
    requires |g| == |h| && forall x :: 0 <= x < |g| ==> |g[x]| == |h[x]|
    requires forall x, y :: 0 <= x < |g| && 0 <= y < |g[x]| ==> g[x][y] == h[x][y]
    ensures g == h
  {
    forall x | 0 <= x < |g|
      ensures g[x] == h[x]
    {
    }
  }

  /** `Position`: a mutable pair of coordinates. */
  class Position {
    var x: int
    var y: int

    constructor(x: int, y: int)
      ensures this.x == x && this.y == y
    {
      this.x, this.y := x, y;
    }

    method Down()
      modifies this
      ensures x == old(x) && y == old(y) + 1
    {
      y := y + 1;
    }

    method Left()
      modifies this
      ensures x == old(x) - 1 && y == old(y)
    {
      x := x - 1;
    }

    method Right()
      modifies this
      ensures x == old(x) + 1 && y == old(y)
    {
      x := x + 1;
    }
  }

  /** `Drop`: a position with the way it last moved, whether it settled
      and whether it has met a wall on this row. */
  class Drop {
    const position: Position
    var direction: Direction
    var settled: bool
    var seenWall: bool

    constructor(position: Position, direction: Direction, settled: bool, seenWall: bool)
      ensures this.position == position && this.direction == direction
      ensures this.settled == settled && this.seenWall == seenWall
    {
      this.position, this.direction := position, direction;
      this.settled, this.seenWall := settled, seenWall;
    }

    ghost function State(): DropState
      reads this, position
    {
      DropState(position.x, position.y, direction, settled, seenWall)
    }

    method Down()
      modifies this, position
      ensures State() == MoveDown(old(State()))
    {
      position.Down();
      direction := Direction.Down;
    }

    method Left()
      modifies this, position
      ensures State() == MoveLeft(old(State()))
    {
      position.Left();
      direction := Direction.Left;
    }

    method Right()
      modifies this, position
      ensures State() == MoveRight(old(State()))
    {
      position.Right();
      direction := Direction.Right;
    }
  }

  /** `Scan`: the grid of the scan, indexed `[x][y]`, and the side each
      cell last sent a drop to. */
  class Scan {
    const xMin: int
    const xMax: int
    const yMin: int
    const yMax: int
    var scan: seq<seq<char>>
    var leftOrRight: seq<seq<Direction>>

    function Extent(): Area
    {
      Area(xMin, xMax, yMin, yMax)
    }

    ghost predicate Valid()
      reads this
    {
      Fits(Extent(), scan, leftOrRight) && 0 <= yMin
    }

    /** `initialize`: the bounds of the veins with a column of margin on
        each side, sand everywhere, the spring at `(500, 0)` and clay
        over it. */
    constructor(veins: seq<Vein>)
      requires veins != [] && ScanBounds(veins).xMin >= 0 && ScanBounds(veins).xMax >= 500
      ensures Valid() && Extent() == ScanBounds(veins)
      ensures scan == Initial(veins, Extent()) && leftOrRight == InitialSides(Extent())
    {
      var a := ScanBounds(veins);
      xMin, xMax, yMin, yMax := a.xMin, a.xMax, a.yMin, a.yMax;
      scan := Mark(Blank(a), 500, 0, '+');
      leftOrRight := [];
      new;
      StartCells(veins, a);
      assert Inside(veins, xMax, yMax);
      PaintVeins(veins);
      leftOrRight := InitialSides(a);
      InitialFits(veins);
    }

    /** The loop of `initialize` over the veins. */
    method PaintVeins(veins: seq<Vein>)
      requires Shaped(scan, xMax + 1, yMax + 1) && 0 <= xMax && 0 <= yMax
      requires Inside(veins, xMax, yMax) && PaintedWith(scan, veins[..0])
      modifies this
      ensures scan == Initial(veins, Extent()) && leftOrRight == old(leftOrRight)
    {
      for i := 0 to |veins|
        invariant Shaped(scan, xMax + 1, yMax + 1) && leftOrRight == old(leftOrRight)
        invariant PaintedWith(scan, veins[..i])
      {
        PaintVein(veins[i]);
        ClayAppend(veins, i);
      }
      assert veins[..|veins|] == veins;
      SameGrid(scan, Initial(veins, Extent()));
    }

    /** `at!`: one cell of the scan takes `val`. */
    method Put(x: int, y: int, val: char)
      requires 0 <= x < |scan| && 0 <= y < |scan[x]|
      modifies this
      ensures scan == Mark(old(scan), x, y, val) && leftOrRight == old(leftOrRight)
    {
      scan := Mark(scan, x, y, val);
    }

    /** `open?`. */
    function IsOpen(x: int, y: int): bool
      reads this
      requires Valid() && (y > yMax || (0 <= x <= xMax && 0 <= y))
    {
      Open(Extent(), scan, x, y)
    }

    function CanFlowDown(p: Position): bool
      reads this, p
      requires Valid() && 0 <= p.x <= xMax && 0 <= p.y
    {
      IsOpen(p.x, p.y + 1)
    }

    function CanFlowLeft(p: Position): bool
      reads this, p
      requires Valid() && 0 < p.x <= xMax + 1 && 0 <= p.y
    {
      IsOpen(p.x - 1, p.y)
    }

    function CanFlowRight(p: Position): bool
      reads this, p
      requires Valid() && -1 <= p.x < xMax && 0 <= p.y
    {
      IsOpen(p.x + 1, p.y)
    }

    /** `left_or_right?`: the cell's stored side flips, and the new side
        is the answer. */
    method LeftOrRight(p: Position) returns (side: Direction)
      requires Valid() && 0 <= p.x <= xMax && 0 <= p.y <= yMax
      modifies this
      ensures side == Flip(old(leftOrRight[p.x][p.y]))
      ensures leftOrRight == Mark(old(leftOrRight), p.x, p.y, side) && scan == old(scan)
    {
      side := Flip(leftOrRight[p.x][p.y]);
      leftOrRight := Mark(leftOrRight, p.x, p.y, side);
    }

    /** The grids with the drop's state. */
    ghost function Current(drop: Drop): Flow
      reads this, drop, drop.position
    {
      Flow(scan, leftOrRight, drop.State())
    }

    /** `run_drop`: the drop moves until it settles or falls below the
        scan. */
    method RunDrop(drop: Drop)
      requires Valid() && Good(Extent(), Current(drop))
      modifies this, drop, drop.position
      ensures Valid() && Current(drop) == Fall(Extent(), old(Current(drop)))
    {
      ghost var outcome := Fall(Extent(), Current(drop));
      while !drop.settled && drop.position.y <= yMax
        invariant Valid() && Good(Extent(), Current(drop))
        invariant Fall(Extent(), Current(drop)) == outcome
        decreases Height(Extent(), drop.State()), Phase(drop.State()), Dist(Extent(), drop.State())
      {
        StepDrop(drop);
      }
    }

    /** One pass of the loop of `run_drop`. */
    method StepDrop(drop: Drop)
      requires Valid() && Good(Extent(), Current(drop)) && !drop.settled && drop.position.y <= yMax
      modifies this, drop, drop.position
      ensures Valid() && Current(drop) == Step(Extent(), old(Current(drop)))
    {
      if CanFlowDown(drop.position) {
        FallDrop(drop);
      } else {
        var position := drop.position;
        BlockedInside(Extent(), scan, leftOrRight, position.x, position.y);
        if drop.direction == Down {
          SpreadDrop(drop);
        } else if drop.direction == Left {
          KeepLeftDrop(drop);
        } else {
          KeepRightDrop(drop);
        }
      }
    }

    /** Open below: the drop leaves flowing water behind and falls. */
    method FallDrop(drop: Drop)
      requires Valid() && Good(Extent(), Current(drop)) && !drop.settled && drop.position.y <= yMax
      requires CanFlowDown(drop.position)
      modifies this, drop, drop.position
      ensures Valid() && Current(drop) == Step(Extent(), old(Current(drop)))
    {
      var position := drop.position;
      Put(position.x, position.y, '|');
      drop.seenWall := false;
      drop.Down();
    }

    method SpreadDrop(drop: Drop)
      requires Valid() && Good(Extent(), Current(drop)) && !drop.settled && drop.direction == Down
      requires xMin < drop.position.x < xMax && drop.position.y < yMax
      modifies this, drop, drop.position
      ensures Valid() && Current(drop) == Spread(Extent(), old(Current(drop)))
    {
      var position := drop.position;
      if CanFlowLeft(position) && CanFlowRight(position) {
        ForkDrop(drop);
      } else if CanFlowLeft(position) {
        Put(position.x, position.y, '|');
        drop.seenWall := true;
        drop.Left();
      } else if CanFlowRight(position) {
        Put(position.x, position.y, '|');
        drop.seenWall := true;
        drop.Right();
      } else {
        drop.settled := true;
      }
    }

    /** Both sides open: the drop takes the side the cell did not send
        the previous drop to. */
    method ForkDrop(drop: Drop)
      requires Valid() && Good(Extent(), Current(drop)) && !drop.settled && drop.direction == Down
      requires xMin < drop.position.x < xMax && drop.position.y < yMax
      requires CanFlowLeft(drop.position) && CanFlowRight(drop.position)
      modifies this, drop, drop.position
      ensures Valid() && Current(drop) == Spread(Extent(), old(Current(drop)))
    {
      var position := drop.position;
      Put(position.x, position.y, '|');
      var side := LeftOrRight(position);
      if side == Left {
        drop.Left();
      } else {
        drop.Right();
      }
    }

    method KeepLeftDrop(drop: Drop)
      requires Valid() && Good(Extent(), Current(drop)) && !drop.settled && drop.direction == Left
      requires xMin < drop.position.x < xMax && drop.position.y < yMax
      modifies this, drop, drop.position
      ensures Valid() && Current(drop) == KeepLeft(Extent(), old(Current(drop)))
    {
      var position := drop.position;
      if CanFlowLeft(position) {
        Put(position.x, position.y, '|');
        drop.Left();
      } else if drop.seenWall {
        drop.settled := true;
      } else {
        Put(position.x, position.y, '|');
        drop.seenWall := true;
        drop.Right();
      }
    }

    method KeepRightDrop(drop: Drop)
      requires Valid() && Good(Extent(), Current(drop)) && !drop.settled && drop.direction == Right
      requires xMin < drop.position.x < xMax && drop.position.y < yMax
      modifies this, drop, drop.position
      ensures Valid() && Current(drop) == KeepRight(Extent(), old(Current(drop)))
    {
      var position := drop.position;
      if CanFlowRight(position) {
        Put(position.x, position.y, '|');
        drop.Right();
      } else if drop.seenWall {
        drop.settled := true;
      } else {
        Put(position.x, position.y, '|');
        drop.seenWall := true;
        drop.Left();
      }
    }

    /** How `run` ends from the current grids with `lost` drops lost in a
        row and at most `fuel` more drops. */
    ghost function Outcome(lost: nat, fuel: nat): Option<(seq<seq<char>>, seq<seq<Direction>>)>
      reads this
      requires Valid() && 500 <= xMax
    {
      Pour(Extent(), scan, leftOrRight, lost, fuel)
    }

    /** `run` with at most `fuel` drops: whether ten drops in a row were
        lost before the fuel ran out. */
    method Run(fuel: nat) returns (done: bool)
      requires Valid() && 500 <= xMax
      modifies this
      ensures Valid()
      ensures done == old(Outcome(0, fuel)).Some?
      ensures done ==> old(Outcome(0, fuel)).value == (scan, leftOrRight)
    {
      ghost var goal := Outcome(0, fuel);
      var lost: nat := 0;
      var left: nat := fuel;
      while lost < 10 && left > 0
        invariant Valid()
        invariant Outcome(lost, left) == goal
        decreases left
      {
        lost := PourDrop(lost, left);
        left := left - 1;
      }
      done := Finished(lost, left);
    }

    /** The answer of `run` once its loop has stopped. */
    method Finished(lost: nat, ghost left: nat) returns (done: bool)
      requires Valid() && 500 <= xMax && (lost >= 10 || left == 0)
      ensures done == Outcome(lost, left).Some?
      ensures done ==> Outcome(lost, left).value == (scan, leftOrRight)
    {
      done := lost >= 10;
    }

    /** One pass of the loop of `run`: a drop from the spring. */
    method PourDrop(lost: nat, ghost fuel: nat) returns (next: nat)
      requires Valid() && 500 <= xMax && lost < 10 && fuel > 0
      modifies this
      ensures Valid() && Outcome(next, fuel - 1) == old(Outcome(lost, fuel))
    {
      var position := new Position(500, 1);
      var drop := new Drop(position, Direction.Down, false, false);
      RunDrop(drop);
      if drop.settled {
        SettleFits(Extent(), Current(drop));
        Put(position.x, position.y, '~');
        next := 0;
      } else {
        next := lost + 1;
      }
    }

    /** `count_water` and `count_water_at_rest` share this loop over the
        scanned rectangle. */
    method CountKinds(kinds: set<char>) returns (count: nat)
      requires Valid()
      ensures count == CountRows(Extent(), scan, kinds, yMax)
    {
      count := 0;
      var y := yMin;
      while y <= yMax
        invariant yMin <= y && (y <= yMax + 1 || y == yMin)
        invariant count == CountRows(Extent(), scan, kinds, y - 1)
      {
        var row := CountInRow(kinds, y);
        count := count + row;
        y := y + 1;
      }
    }

    method CountInRow(kinds: set<char>, y: int) returns (count: nat)
      requires Valid() && yMin <= y <= yMax
      ensures count == CountRow(Extent(), scan, kinds, y, xMax)
    {
      count := 0;
      var x := xMin;
      while x <= xMax
        invariant xMin <= x && (x <= xMax + 1 || x == xMin)
        invariant count == CountRow(Extent(), scan, kinds, y, x - 1)
      {
        if scan[x][y] in kinds {
          count := count + 1;
        }
        x := x + 1;
      }
    }

    /** `count_water`: the cells of the scanned rectangle holding water. */
    method CountWater() returns (count: nat)
      requires Valid()
      ensures count == CountRows(Extent(), scan, Water, yMax)
    {
      count := CountKinds(Water);
    }

    /** `count_water_at_rest`: those holding water at rest. */
    method CountWaterAtRest() returns (count: nat)
      requires Valid()
      ensures count == CountRows(Extent(), scan, AtRest, yMax)
    {
      count := CountKinds(AtRest);
    }

    /** The clay of one vein: `#` in every cell it covers. */
    method PaintVein(v: Vein)
      requires Shaped(scan, xMax + 1, yMax + 1) && v.xLast < xMax && v.yLast <= yMax
      modifies this
      ensures Shaped(scan, xMax + 1, yMax + 1) && leftOrRight == old(leftOrRight)
      ensures forall x, y :: 0 <= x < |scan| && 0 <= y < |scan[x]| ==>
        scan[x][y] == if Covers(v, x, y) then '#' else old(scan[x][y])
    {
      var x := v.xFirst;
      while x <= v.xLast
        invariant v.xFirst <= x && (x <= v.xLast + 1 || x == v.xFirst)
        invariant Shaped(scan, xMax + 1, yMax + 1) && leftOrRight == old(leftOrRight)
        invariant forall i, j :: 0 <= i < |scan| && 0 <= j < |scan[i]| ==>
          scan[i][j] == if v.xFirst <= i < x && v.yFirst <= j <= v.yLast then '#' else old(scan[i][j])
      {
        PaintColumn(x, v.yFirst, v.yLast);
        x := x + 1;
      }
    }

    /** Clay in column `x` from row `yFirst` to row `yLast`. */
    method PaintColumn(x: int, yFirst: int, yLast: int)
      requires Shaped(scan, xMax + 1, yMax + 1) && 0 <= x <= xMax && 0 <= yFirst && yLast <= yMax
      modifies this
      ensures Shaped(scan, xMax + 1, yMax + 1) && leftOrRight == old(leftOrRight)
      ensures forall i, j :: 0 <= i < |scan| && 0 <= j < |scan[i]| ==>
        scan[i][j] == if i == x && yFirst <= j <= yLast then '#' else old(scan[i][j])
    {
      var y := yFirst;
      while y <= yLast
        invariant yFirst <= y && (y <= yLast + 1 || y == yFirst)
        invariant Shaped(scan, xMax + 1, yMax + 1) && leftOrRight == old(leftOrRight)
        invariant forall i, j :: 0 <= i < |scan| && 0 <= j < |scan[i]| ==>
          scan[i][j] == if i == x && yFirst <= j < y then '#' else old(scan[i][j])
      {
        scan := Mark(scan, x, y, '#');
        y := y + 1;
      }
    }
  }
}
