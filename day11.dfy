/** Fuel-cell grid: each cell of a 300x300 grid has a power level given by
    a formula of its coordinates and the grid's serial number; the search
    looks for the square of largest total power. */
module FuelCells {
  import opened Wrappers

  const GridSize: nat := 300

  /** The hundreds digit of a non-negative number. */
  function HundredsDigit(n: int): (d: int)
    ensures 0 <= d <= 9
  {
    if n < 100 then 0 else (n / 100) % 10
  }

  /** `power_level`: the hundreds digit of `((x + 10) * y + serial) * (x + 10)`,
      minus 5. A level below 100 (negative ones included) counts as 0; for
      levels of 100 and more Ruby's floor division agrees with Dafny's. */
  function PowerLevel(x: int, y: int, serial: int): (p: int)
    ensures -5 <= p <= 4
  {
    var rackId := x + 10;
    HundredsDigit((rackId * y + serial) * rackId) - 5
  }

  /** The sum of column `x`, rows `y .. y + h - 1`. */
  function ColumnPower(x: int, y: int, serial: int, h: nat): int
  {
    if h == 0 then 0 else ColumnPower(x, y, serial, h - 1) + PowerLevel(x, y + h - 1, serial)
  }

  /** The sum of the `w` columns `x .. x + w - 1`, each of height `h`. */
  function RectPower(x: int, y: int, serial: int, w: nat, h: nat): int
  {
    if w == 0 then 0 else RectPower(x, y, serial, w - 1, h) + ColumnPower(x + w - 1, y, serial, h)
  }

  /** The total power of the `size` x `size` square anchored at `(x, y)`. */
  function SquarePower(x: int, y: int, serial: int, size: nat): int
  {
    RectPower(x, y, serial, size, size)
  }

  lemma {:induction false} ColumnPowerBounds(x: int, y: int, serial: int, h: nat)
    ensures -5 * h <= ColumnPower(x, y, serial, h) <= 4 * h
  {
    if h > 0 {
      ColumnPowerBounds(x, y, serial, h - 1);
    }
  }

  lemma {:induction false} RectPowerBounds(x: int, y: int, serial: int, w: nat, h: nat)
    ensures -5 * (w * h) <= RectPower(x, y, serial, w, h) <= 4 * (w * h)
  {
    if w > 0 {
      RectPowerBounds(x, y, serial, w - 1, h);
      ColumnPowerBounds(x + w - 1, y, serial, h);
      assert (w - 1) * h + h == w * h;
    }
  }

  /** A square's total lies in `[-5 * size^2, 4 * size^2]`. */
  lemma SquarePowerBounds(x: int, y: int, serial: int, size: nat)
    ensures -5 * (size * size) <= SquarePower(x, y, serial, size) <= 4 * (size * size)
  {
    RectPowerBounds(x, y, serial, size, size);
  }

  /** A 1x1 square is the cell's own power level. */
  lemma UnitSquareIsCell(x: int, y: int, serial: int)
    ensures SquarePower(x, y, serial, 1) == PowerLevel(x, y, serial)
  {
    assert ColumnPower(x, y, serial, 1) == PowerLevel(x, y, serial);
    assert RectPower(x, y, serial, 1, 1) == ColumnPower(x, y, serial, 1);
  }

  /** `power_level_total`: the nested loops over the square's columns and
      rows. */
  method PowerLevelTotal(x: int, y: int, serial: int, size: nat) returns (total: int)
    ensures total == SquarePower(x, y, serial, size)
  {
    total := 0;
    for i := 0 to size
      invariant total == RectPower(x, y, serial, i, size)
    {
      ghost var before := total;
      for j := 0 to size
        invariant total == before + ColumnPower(x + i, y, serial, j)
      {
        total := total + PowerLevel(x + i, y + j, serial);
      }
    }
  }

  // ---------------------------------------------------------------------
  // The search over every square size and position.

  /** Square `(s1, x1, y1)` comes before `(s2, x2, y2)` in the scan: size,
      then x, then y. */
  predicate ScanBefore(s1: int, x1: int, y1: int, s2: int, x2: int, y2: int)
  {
    s1 < s2 || (s1 == s2 && (x1 < x2 || (x1 == x2 && y1 < y2)))
  }

  /** A square the scan visits: size `1..300`, anchor `1..301 - size` on
      both axes. */
  predicate InGrid(s: int, x: int, y: int)
  {
    1 <= s <= GridSize && 1 <= x <= GridSize - s + 1 && 1 <= y <= GridSize - s + 1
  }

  /** `(s, x, y)` is the first square of maximal total in scan order. */
  ghost predicate FirstMaximum(serial: int, s: int, x: int, y: int)
  {
    InGrid(s, x, y) &&
    (forall s', x', y' :: InGrid(s', x', y') ==> SquarePower(x', y', serial, s') <= SquarePower(x, y, serial, s)) &&
    (forall s', x', y' :: InGrid(s', x', y') && ScanBefore(s', x', y', s, x, y) ==>
       SquarePower(x', y', serial, s') < SquarePower(x, y, serial, s))
  }

  /** What the scan has established after visiting every square before
      `(s, x, y)`: the best square so far, strictly better than any earlier
      one and at least as good as any other visited. */
  ghost predicate ScanState(serial: int, s: int, x: int, y: int, maxPower: int, ms: int, mx: int, my: int)
  {
    (ms == 0 ==> maxPower == -1000 && s == 1 && x == 1 && y == 1) &&
    (ms != 0 ==>
      InGrid(ms, mx, my) && ScanBefore(ms, mx, my, s, x, y) &&
      maxPower == SquarePower(mx, my, serial, ms) &&
      (forall s', x', y' :: InGrid(s', x', y') && ScanBefore(s', x', y', s, x, y) ==> SquarePower(x', y', serial, s') <= maxPower) &&
      (forall s', x', y' :: InGrid(s', x', y') && ScanBefore(s', x', y', ms, mx, my) ==> SquarePower(x', y', serial, s') < maxPower))
  }

  /** One visit of the scan: compare square `(s, x, y)` with the best so far. */
  method Visit(serial: int, s: nat, x: nat, y: nat, maxPower: int, ms: nat, mx: nat, my: nat)
    returns (maxPower': int, ms': nat, mx': nat, my': nat)
    requires InGrid(s, x, y)
    requires ScanState(serial, s, x, y, maxPower, ms, mx, my)
    ensures ms' != 0
    ensures ScanState(serial, s, x, y + 1, maxPower', ms', mx', my')
  {
    var p := PowerLevelTotal(x, y, serial, s);
    if ms == 0 {
      SquarePowerBounds(x, y, serial, s);
      assert 1 <= s * s by {
        assert s >= 1;
      }
      assert p > -1000 by {
        assert s <= GridSize;
        assert s * s <= GridSize * GridSize;
      }
    }
    if p > maxPower {
      maxPower', ms', mx', my' := p, s, x, y;
    } else {
      maxPower', ms', mx', my' := maxPower, ms, mx, my;
    }
  }

  /** `grid`: the scan over sizes, then x, then y, keeping the first strict
      maximum, followed by the return line as written: it names `size`, the
      block parameter of the outer loop, which no longer exists there, so
      Ruby raises `NameError` once the scan is over. */
  method GridAsWritten(serial: int) returns (r: Result<(nat, nat, nat)>)
    ensures r.Fail?
  {
    var best := Grid(serial);
    r := Fail("NameError: undefined local variable or method `size'");
  }

  /** `grid` with the found size returned: the first square of maximal
      total power in scan order. */
  method Grid(serial: int) returns (r: (nat, nat, nat))
    ensures FirstMaximum(serial, r.2, r.0, r.1)
  {
    var maxPower := -1000;
    var maxX, maxY, maxSize := 0, 0, 0;
    var size := 1;
    while size <= GridSize
      invariant 1 <= size <= GridSize + 1
      invariant size > 1 ==> maxSize != 0
      invariant ScanState(serial, size, 1, 1, maxPower, maxSize, maxX, maxY)
    {
      var last := GridSize - size + 1;
      var x := 1;
      while x <= last
        invariant 1 <= x <= last + 1
        invariant x > 1 ==> maxSize != 0
        invariant ScanState(serial, size, x, 1, maxPower, maxSize, maxX, maxY)
      {
        var y := 1;
        while y <= last
          invariant 1 <= y <= last + 1
          invariant y > 1 ==> maxSize != 0
          invariant ScanState(serial, size, x, y, maxPower, maxSize, maxX, maxY)
        {
          maxPower, maxSize, maxX, maxY := Visit(serial, size, x, y, maxPower, maxSize, maxX, maxY);
          y := y + 1;
        }
        NextRow(serial, size, x, maxPower, maxSize, maxX, maxY);
        x := x + 1;
      }
      NextSize(serial, size, maxPower, maxSize, maxX, maxY);
      size := size + 1;
    }
    ScanComplete(serial, maxPower, maxSize, maxX, maxY);
    r := (maxX, maxY, maxSize);
  }

  /** Past the last row of column `x`, the scan moves on to column `x + 1`. */
  lemma NextRow(serial: int, s: int, x: int, maxPower: int, ms: int, mx: int, my: int)
    requires 1 <= s <= GridSize && 1 <= x <= GridSize - s + 1 && ms != 0
    requires ScanState(serial, s, x, GridSize - s + 2, maxPower, ms, mx, my)
    ensures ScanState(serial, s, x + 1, 1, maxPower, ms, mx, my)
  {
    forall s', x', y' | InGrid(s', x', y') && ScanBefore(s', x', y', s, x + 1, 1)
      ensures ScanBefore(s', x', y', s, x, GridSize - s + 2)
    {
    }
  }

  /** Past the last column of size `s`, the scan moves on to size `s + 1`. */
  lemma NextSize(serial: int, s: int, maxPower: int, ms: int, mx: int, my: int)
    requires 1 <= s <= GridSize && ms != 0
    requires ScanState(serial, s, GridSize - s + 2, 1, maxPower, ms, mx, my)
    ensures ScanState(serial, s + 1, 1, 1, maxPower, ms, mx, my)
  {
    forall s', x', y' | InGrid(s', x', y') && ScanBefore(s', x', y', s + 1, 1, 1)
      ensures ScanBefore(s', x', y', s, GridSize - s + 2, 1)
    {
    }
  }

  /** After the last size every square has been visited. */
  lemma ScanComplete(serial: int, maxPower: int, ms: int, mx: int, my: int)
    requires ms != 0 && ScanState(serial, GridSize + 1, 1, 1, maxPower, ms, mx, my)
    ensures FirstMaximum(serial, ms, mx, my)
  {
    forall s', x', y' | InGrid(s', x', y')
      ensures ScanBefore(s', x', y', GridSize + 1, 1, 1)
    {
    }
  }
}
