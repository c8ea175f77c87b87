/** Areas nearest by Manhattan distance: every cell of a board spanning the
    given coordinates belongs to its unique nearest coordinate (or to none
    on a tie); the largest area not touching the board's edge, and the
    number of cells whose summed distance stays within a bound. */
module ChronalAreas {
  import opened Wrappers

  datatype Coord = Coord(x: int, y: int)

  function Abs(n: int): nat
  {
    if n < 0 then -n else n
  }

  /** `Coord#distance`: the Manhattan distance to cell `(x, y)`. */
  function Distance(c: Coord, x: int, y: int): (d: int)
    ensures d >= 0 && (d == 0 <==> c.x == x && c.y == y)
  {
    Abs(c.x - x) + Abs(c.y - y)
  }

  /** Manhattan distance is symmetric and obeys the triangle inequality. */
  lemma DistanceMetric(a: Coord, b: Coord, c: Coord)
    ensures Distance(a, b.x, b.y) == Distance(b, a.x, a.y)
    ensures Distance(a, c.x, c.y) <= Distance(a, b.x, b.y) + Distance(b, c.x, c.y)
  {
  }

  // ---------------------------------------------------------------------
  // Board size.

  /** `coords.map(&:x).max`. */
  function MaxX(coords: seq<Coord>): (m: int)
    requires coords != []
    ensures (exists i :: 0 <= i < |coords| && coords[i].x == m) && forall i :: 0 <= i < |coords| ==> coords[i].x <= m
  {
    if |coords| == 1 then coords[0].x
    else
      var prior := coords[..|coords| - 1];
      var m := MaxX(prior);
      assert forall i :: 0 <= i < |prior| ==> prior[i] == coords[i];
      if coords[|coords| - 1].x > m then coords[|coords| - 1].x else m
  }

  /** `coords.map(&:y).max`. */
  function MaxY(coords: seq<Coord>): (m: int)
    requires coords != []
    ensures (exists i :: 0 <= i < |coords| && coords[i].y == m) && forall i :: 0 <= i < |coords| ==> coords[i].y <= m
  {
    if |coords| == 1 then coords[0].y
    else
      var prior := coords[..|coords| - 1];
      var m := MaxY(prior);
      assert forall i :: 0 <= i < |prior| ==> prior[i] == coords[i];
      if coords[|coords| - 1].y > m then coords[|coords| - 1].y else m
  }

  // ---------------------------------------------------------------------
  // Nearest coordinate.

  /** The smallest distance from any coordinate to `(x, y)`. */
  function MinDistance(coords: seq<Coord>, x: int, y: int): (d: int)
    requires coords != []
    ensures exists i :: 0 <= i < |coords| && Distance(coords[i], x, y) == d
    ensures forall i :: 0 <= i < |coords| ==> d <= Distance(coords[i], x, y)
  {
    if |coords| == 1 then Distance(coords[0], x, y)
    else
      var prior := coords[..|coords| - 1];
      var d := MinDistance(prior, x, y);
      assert forall i :: 0 <= i < |prior| ==> prior[i] == coords[i];
      var last := Distance(coords[|coords| - 1], x, y);
      if last < d then last else d
  }

  /** The smallest distance seen so far, the first coordinate at that
      distance, and whether every coordinate at that distance equals it. */
  datatype Nearest = Nearest(d: int, c: Coord, unique: bool)

  /** One pass over the coordinates keeping the nearest one. */
  function Scan(coords: seq<Coord>, x: int, y: int): Nearest
    requires coords != []
  {
    if |coords| == 1 then Nearest(Distance(coords[0], x, y), coords[0], true)
    else
      var n := Scan(coords[..|coords| - 1], x, y);
      var last := coords[|coords| - 1];
      var d := Distance(last, x, y);
      if d < n.d then Nearest(d, last, true)
      else if d == n.d && last != n.c then n.(unique := false)
      else n
  }

  /** The pass finds the smallest distance, a coordinate at it, and
      whether that coordinate is the only one at it. */
  lemma {:induction false} ScanFinds(coords: seq<Coord>, x: int, y: int)
    requires coords != []
    ensures var n := Scan(coords, x, y);
      n.d == MinDistance(coords, x, y) && n.c in coords && Distance(n.c, x, y) == n.d &&
      (n.unique <==> forall i :: 0 <= i < |coords| && Distance(coords[i], x, y) == n.d ==> coords[i] == n.c)
  {
    if |coords| > 1 {
      var prior := coords[..|coords| - 1];
      ScanFinds(prior, x, y);
      if Distance(coords[|coords| - 1], x, y) < Scan(prior, x, y).d {
        ScanCloser(coords, x, y);
      } else {
        ScanNotCloser(coords, x, y);
      }
    }
  }

  /** What `ScanFinds` states of the pass result `n`. */
  ghost predicate Finds(coords: seq<Coord>, x: int, y: int, n: Nearest)
    requires coords != []
  {
    n.d == MinDistance(coords, x, y) && n.c in coords && Distance(n.c, x, y) == n.d &&
    (n.unique <==> forall i :: 0 <= i < |coords| && Distance(coords[i], x, y) == n.d ==> coords[i] == n.c)
  }

  /** A last coordinate nearer than all before it becomes the nearest. */
  lemma ScanCloser(coords: seq<Coord>, x: int, y: int)
    requires |coords| > 1
    requires var prior := coords[..|coords| - 1];
      Finds(prior, x, y, Scan(prior, x, y)) && Distance(coords[|coords| - 1], x, y) < Scan(prior, x, y).d
    ensures Finds(coords, x, y, Scan(coords, x, y))
  {
    var prior := coords[..|coords| - 1];
    var last := coords[|coords| - 1];
    assert forall i :: 0 <= i < |prior| ==> prior[i] == coords[i];
    assert Scan(coords, x, y) == Nearest(Distance(last, x, y), last, true);
  }

  /** A last coordinate no nearer keeps the nearest one, and spoils its
      uniqueness when it is a different coordinate at the same distance. */
  lemma ScanNotCloser(coords: seq<Coord>, x: int, y: int)
    requires |coords| > 1
    requires var prior := coords[..|coords| - 1];
      Finds(prior, x, y, Scan(prior, x, y)) && Distance(coords[|coords| - 1], x, y) >= Scan(prior, x, y).d
    ensures Finds(coords, x, y, Scan(coords, x, y))
  {
    var prior := coords[..|coords| - 1];
    var last := coords[|coords| - 1];
    var p := Scan(prior, x, y);
    assert forall i :: 0 <= i < |prior| ==> prior[i] == coords[i];
    assert p.c in coords;
    var n := Scan(coords, x, y);
    assert n.d == p.d && n.c == p.c;
    assert n.unique <==> p.unique && (Distance(last, x, y) == p.d ==> last == p.c);
  }

  /** `closest_coord`: the coordinates are keys of a hash, so equal
      coordinates count once; the nearest one if it is the only one at the
      smallest distance, `nil` otherwise. */
  function Closest(coords: seq<Coord>, x: int, y: int): Option<Coord>
    requires coords != []
  {
    var n := Scan(coords, x, y);
    if n.unique then Some(n.c) else None
  }

  /** The cell's nearest coordinate is strictly nearer than every other
      coordinate; there is none exactly when two different coordinates share
      the smallest distance. */
  lemma ClosestIsUnique(coords: seq<Coord>, x: int, y: int)
    requires coords != []
    ensures var r := Closest(coords, x, y);
      r.Some? ==> r.value in coords && forall c :: c in coords && c != r.value ==> Distance(r.value, x, y) < Distance(c, x, y)
    ensures Closest(coords, x, y).None? <==> exists i, j :: (0 <= i < |coords| && 0 <= j < |coords| && coords[i] != coords[j] &&
      Distance(coords[i], x, y) == MinDistance(coords, x, y) && Distance(coords[j], x, y) == MinDistance(coords, x, y))
  {
    ScanFinds(coords, x, y);
    var n := Scan(coords, x, y);
    var k :| 0 <= k < |coords| && coords[k] == n.c;
    if !n.unique {
      var j :| 0 <= j < |coords| && Distance(coords[j], x, y) == n.d && coords[j] != n.c;
      assert coords[k] != coords[j];
    }
  }

  /** `total_distance`: the distances to all coordinates added up. */
  function TotalDistance(coords: seq<Coord>, x: int, y: int): (t: int)
    ensures t >= 0
  {
    if coords == [] then 0 else TotalDistance(coords[..|coords| - 1], x, y) + Distance(coords[|coords| - 1], x, y)
  }

  // ---------------------------------------------------------------------
  // Counting cells.

  /** `edge?`: the cell lies on the border of a `w` by `h` board. */
  predicate OnEdge(w: int, h: int, x: int, y: int)
  {
    x == 0 || y == 0 || x == w - 1 || y == h - 1
  }

  /** A cell of the board is on the edge exactly when one of its four
      neighbours lies off the board. */
  lemma EdgeIffNeighbourOff(w: int, h: int, x: int, y: int)
    requires 0 <= x < w && 0 <= y < h
    ensures OnEdge(w, h, x, y) <==> !(0 <= x - 1 && x + 1 < w && 0 <= y - 1 && y + 1 < h)
  {
  }

  /** The cells of coordinate `c`. */
  function OwnedBy(coords: seq<Coord>, c: Coord): (int, int) -> bool
  {
    (x, y) => coords != [] && Closest(coords, x, y) == Some(c)
  }

  /** The cells whose total distance is at most `limit`. */
  function Near(coords: seq<Coord>, limit: int): (int, int) -> bool
  {
    (x, y) => TotalDistance(coords, x, y) <= limit
  }

  /** The cells `(x, 0) .. (x, h - 1)` passing `p`. */
  function CountColumn(p: (int, int) -> bool, x: int, h: nat): nat
  {
    if h == 0 then 0 else CountColumn(p, x, h - 1) + (if p(x, h - 1) then 1 else 0)
  }

  /** The cells of columns `0 .. w - 1`, `h` high, passing `p`: what the
      nested counting loops count. */
  function CountCells(p: (int, int) -> bool, w: nat, h: nat): nat
  {
    if w == 0 then 0 else CountCells(p, w - 1, h) + CountColumn(p, w - 1, h)
  }

  /** A count is at most the board size, and is zero exactly when no cell
      passes. */
  lemma {:induction false} CountCellsBounds(p: (int, int) -> bool, w: nat, h: nat)
    ensures CountCells(p, w, h) <= w * h
    ensures CountCells(p, w, h) == 0 <==> forall x, y :: 0 <= x < w && 0 <= y < h ==> !p(x, y)
  {
    if w > 0 {
      CountCellsBounds(p, w - 1, h);
      CountColumnBounds(p, w - 1, h);
      assert (w - 1) * h + h == w * h;
      if CountCells(p, w, h) == 0 {
        forall x, y | 0 <= x < w && 0 <= y < h
          ensures !p(x, y)
        {
          if x == w - 1 {
            assert !p(w - 1, y);
          }
        }
      }
    }
  }

  lemma {:induction false} CountColumnBounds(p: (int, int) -> bool, x: int, h: nat)
    ensures CountColumn(p, x, h) <= h
    ensures CountColumn(p, x, h) == 0 <==> forall y :: 0 <= y < h ==> !p(x, y)
  {
    if h > 0 {
      CountColumnBounds(p, x, h - 1);
    }
  }

  /** Counting a weaker test never gives less. */
  lemma {:induction false} CountGrows(p: (int, int) -> bool, q: (int, int) -> bool, w: nat, h: nat)
    requires forall x, y :: p(x, y) ==> q(x, y)
    ensures CountCells(p, w, h) <= CountCells(q, w, h)
  {
    if w > 0 {
      CountGrows(p, q, w - 1, h);
      ColumnGrows(p, q, w - 1, h);
    }
  }

  lemma {:induction false} ColumnGrows(p: (int, int) -> bool, q: (int, int) -> bool, x: int, h: nat)
    requires forall x, y :: p(x, y) ==> q(x, y)
    ensures CountColumn(p, x, h) <= CountColumn(q, x, h)
  {
    if h > 0 {
      ColumnGrows(p, q, x, h - 1);
    }
  }

  /** A larger bound never shrinks the region. */
  lemma RegionGrows(coords: seq<Coord>, low: int, high: int, w: nat, h: nat)
    requires low <= high
    ensures CountCells(Near(coords, low), w, h) <= CountCells(Near(coords, high), w, h)
  {
    CountGrows(Near(coords, low), Near(coords, high), w, h);
  }

  /** Some cell of `c` lies on the edge of the board. */
  predicate OwnsEdgeCell(coords: seq<Coord>, c: Coord, w: nat, h: nat)
    requires coords != []
  {
    exists x, y :: 0 <= x < w && 0 <= y < h && OwnedBy(coords, c)(x, y) && OnEdge(w, h, x, y)
  }

  /** The area of `c`: `nil` when it reaches the edge (it is infinite),
      otherwise the number of cells it owns. */
  function AreaOf(coords: seq<Coord>, c: Coord, w: nat, h: nat): Option<nat>
    requires coords != []
  {
    if OwnsEdgeCell(coords, c, w, h) then None else Some(CountCells(OwnedBy(coords, c), w, h))
  }

  /** `areas.compact.max`: the largest area that is not `nil`, `nil` if
      there is none. */
  function LargestOf(areas: seq<Option<nat>>): (r: Option<nat>)
    ensures r.None? <==> forall i :: 0 <= i < |areas| ==> areas[i].None?
    ensures r.Some? ==> (r in areas && forall i :: 0 <= i < |areas| && areas[i].Some? ==> areas[i].value <= r.value)
  {
    if areas == [] then None
    else
      var prior := areas[..|areas| - 1];
      var r := LargestOf(prior);
      var last := areas[|areas| - 1];
      assert forall i :: 0 <= i < |prior| ==> prior[i] == areas[i];
      if last.None? then r
      else if r.None? || r.value < last.value then last
      else r
  }

  function Areas(coords: seq<Coord>, w: nat, h: nat, n: nat): (r: seq<Option<nat>>)
    requires coords != [] && n <= |coords|
    ensures |r| == n && forall i :: 0 <= i < n ==> r[i] == AreaOf(coords, coords[i], w, h)
  {
    if n == 0 then [] else Areas(coords, w, h, n - 1) + [AreaOf(coords, coords[n - 1], w, h)]
  }

  // ---------------------------------------------------------------------
  // The board.

  class Board {
    const coords: seq<Coord>
    const width: nat
    const height: nat
    /** `@board`: the nearest coordinate of every cell, once filled. */
    var cells: array2<Option<Coord>>

    ghost predicate Valid()
      reads this
    {
      coords != [] && cells.Length0 == width && cells.Length1 == height
    }

    /** Every cell holds its nearest coordinate. */
    ghost predicate Filled()
      reads this, cells
      requires Valid()
    {
      forall x, y :: 0 <= x < width && 0 <= y < height ==> cells[x, y] == Closest(coords, x, y)
    }

    /** `Board.new` with `init_board`: the board spans the columns up to the
        largest x and the rows up to the largest y. */
    constructor(coords: seq<Coord>)
      requires coords != [] && MaxX(coords) >= -1 && MaxY(coords) >= -1
      ensures Valid() && this.coords == coords
      ensures width == MaxX(coords) + 1 && height == MaxY(coords) + 1
      ensures fresh(cells)
    {
      this.coords := coords;
      width := MaxX(coords) + 1;
      height := MaxY(coords) + 1;
      cells := new Option<Coord>[MaxX(coords) + 1, MaxY(coords) + 1]((_, _) => None);
    }

    /** `fill_closest_coord!`. */
    method FillClosest()
      requires Valid()
      modifies cells
      ensures Valid() && Filled()
    {
      for x := 0 to width
        invariant forall i, j :: 0 <= i < x && 0 <= j < height ==> cells[i, j] == Closest(coords, i, j)
      {
        for y := 0 to height
          invariant forall i, j :: 0 <= i < x && 0 <= j < height ==> cells[i, j] == Closest(coords, i, j)
          invariant forall j :: 0 <= j < y ==> cells[x, j] == Closest(coords, x, j)
        {
          cells[x, y] := Closest(coords, x, y);
        }
      }
    }

    /** `area`: the cells holding `c`, counted column by column; `nil` as
        soon as one of them is on the edge. */
    method Area(c: Coord) returns (r: Option<nat>)
      requires Valid() && Filled()
      ensures r == AreaOf(coords, c, width, height)
    {
      var area := 0;
      for x := 0 to width
        invariant area == CountCells(OwnedBy(coords, c), x, height)
        invariant forall i, j :: 0 <= i < x && 0 <= j < height && OwnedBy(coords, c)(i, j) ==> !OnEdge(width, height, i, j)
      {
        var count, edge := ColumnArea(c, x);
        if edge {
          return None;
        }
        area := area + count;
      }
      return Some(area);
    }

    /** The inner loop of `area` over column `x`: the cells holding `c`,
        stopping at the first one on the edge. */
    method ColumnArea(c: Coord, x: nat) returns (count: nat, edge: bool)
      requires Valid() && Filled() && x < width
      ensures edge <==> exists y :: 0 <= y < height && OwnedBy(coords, c)(x, y) && OnEdge(width, height, x, y)
      ensures !edge ==> count == CountColumn(OwnedBy(coords, c), x, height)
    {
      count := 0;
      for y := 0 to height
        invariant count == CountColumn(OwnedBy(coords, c), x, y)
        invariant forall j :: 0 <= j < y && OwnedBy(coords, c)(x, j) ==> !OnEdge(width, height, x, j)
      {
        if cells[x, y] == Some(c) {
          count := count + 1;
          if OnEdge(width, height, x, y) {
            return count, true;
          }
        }
      }
      edge := false;
    }

    /** `largest_area`: fill the board, then the largest finite area. */
    method LargestArea() returns (r: Option<nat>)
      requires Valid()
      modifies cells
      ensures Valid() && Filled()
      ensures r == LargestOf(Areas(coords, width, height, |coords|))
    {
      FillClosest();
      var areas: seq<Option<nat>> := [];
      for i := 0 to |coords|
        invariant Filled() && areas == Areas(coords, width, height, i)
      {
        var a := Area(coords[i]);
        areas := areas + [a];
      }
      r := LargestOf(areas);
    }

    /** `largest_region`: the cells whose total distance is at most
        `limit`. */
    method LargestRegion(limit: int) returns (area: nat)
      requires Valid()
      ensures area == CountCells(Near(coords, limit), width, height)
    {
      area := 0;
      for x := 0 to width
        invariant area == CountCells(Near(coords, limit), x, height)
      {
        for y := 0 to height
          invariant area == CountCells(Near(coords, limit), x, height) + CountColumn(Near(coords, limit), x, y)
        {
          if TotalDistance(coords, x, y) <= limit {
            area := area + 1;
          }
        }
      }
    }
  }
}
