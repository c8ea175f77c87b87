/** A lumber collection area as a cellular automaton: every acre is open
    ground `.`, trees `|` or a lumberyard `#`, and every minute all acres
    change at once according to their eight neighbours. */
module LumberArea {
  import opened Wrappers

  function Min(a: int, b: int): int { if a < b then a else b }
  function Max(a: int, b: int): int { if a > b then a else b }

  // ---------------------------------------------------------------------
  // Counting acres on a grid value.

  /** A `w` wide, `h` high grid. */
  predicate Rect(g: seq<seq<char>>, w: nat, h: nat)
  {
    |g| == h && forall y :: 0 <= y < h ==> |g[y]| == w
  }

  /** The acres `lo <= ax < hi` of `row` holding `t`, leaving out column
      `skip`. */
  function CountRow(row: seq<char>, lo: nat, hi: int, skip: int, t: char): nat
    requires hi <= |row|
    decreases hi - lo
  {
    if hi <= lo then 0
    else CountRow(row, lo, hi - 1, skip, t) + (if hi - 1 != skip && row[hi - 1] == t then 1 else 0)
  }

  /** The acres of rows `ylo <= ay < yhi` and columns `xlo <= ax < xhi`
      holding `t`, leaving out the acre `(x, y)`. */
  function CountRows(g: seq<seq<char>>, w: nat, ylo: nat, yhi: int, xlo: nat, xhi: int, x: int, y: int, t: char): nat
    requires Rect(g, w, |g|) && yhi <= |g| && xhi <= w
    decreases yhi - ylo
  {
    if yhi <= ylo then 0
    else CountRows(g, w, ylo, yhi - 1, xlo, xhi, x, y, t) + CountRow(g[yhi - 1], xlo, xhi, if yhi - 1 == y then x else -1, t)
  }

  /** What `count_adjacent` counts: the neighbours of `(x, y)` holding `t`,
      the window clamped at the edges. */
  function AdjacentCount(g: seq<seq<char>>, w: nat, x: nat, y: nat, t: char): nat
    requires Rect(g, w, |g|) && x < w && y < |g|
  {
    CountRows(g, w, Max(y - 1, 0), Min(y + 1, |g| - 1) + 1, Max(x - 1, 0), Min(x + 1, w - 1) + 1, x, y, t)
  }

  /** What `count` counts: every acre holding `t`. */
  function Total(g: seq<seq<char>>, w: nat, t: char): nat
    requires Rect(g, w, |g|)
  {
    CountRows(g, w, 0, |g|, 0, w, -1, -1, t)
  }

  lemma {:induction false} CountRowBound(row: seq<char>, lo: nat, hi: int, skip: int, t: char)
    requires lo <= hi <= |row|
    ensures CountRow(row, lo, hi, skip, t) <= hi - lo - (if lo <= skip < hi then 1 else 0)
    decreases hi - lo
  {
    if hi > lo {
      CountRowBound(row, lo, hi - 1, skip, t);
    }
  }

  lemma {:induction false} CountRowsBound(g: seq<seq<char>>, w: nat, ylo: nat, yhi: int, xlo: nat, xhi: int, x: int, y: int, t: char)
    requires Rect(g, w, |g|) && ylo <= yhi <= |g| && xlo <= xhi <= w
    ensures CountRows(g, w, ylo, yhi, xlo, xhi, x, y, t) <=
      (yhi - ylo) * (xhi - xlo) - (if ylo <= y < yhi && xlo <= x < xhi then 1 else 0)
    decreases yhi - ylo
  {
    if yhi > ylo {
      CountRowsBound(g, w, ylo, yhi - 1, xlo, xhi, x, y, t);
      CountRowBound(g[yhi - 1], xlo, xhi, if yhi - 1 == y then x else -1, t);
      assert (yhi - ylo) * (xhi - xlo) == (yhi - 1 - ylo) * (xhi - xlo) + (xhi - xlo);
    }
  }

  /** An acre has at most eight neighbours of one kind. */
  lemma AdjacentAtMostEight(g: seq<seq<char>>, w: nat, x: nat, y: nat, t: char)
    requires Rect(g, w, |g|) && x < w && y < |g|
    ensures AdjacentCount(g, w, x, y, t) <= 8
  {
    var ylo, yhi := Max(y - 1, 0), Min(y + 1, |g| - 1) + 1;
    var xlo, xhi := Max(x - 1, 0), Min(x + 1, w - 1) + 1;
    CountRowsBound(g, w, ylo, yhi, xlo, xhi, x, y, t);
    assert (yhi - ylo) * (xhi - xlo) <= 3 * (xhi - xlo) <= 9;
  }

  lemma {:induction false} CountRowSplit(row: seq<char>, lo: nat, hi: int)
    requires lo <= hi <= |row| && forall ax :: lo <= ax < hi ==> row[ax] in ".|#"
    ensures CountRow(row, lo, hi, -1, '.') + CountRow(row, lo, hi, -1, '|') + CountRow(row, lo, hi, -1, '#') == hi - lo
    decreases hi - lo
  {
    if hi > lo {
      CountRowSplit(row, lo, hi - 1);
    }
  }

  lemma {:induction false} CountRowsSplit(g: seq<seq<char>>, w: nat, yhi: int)
    requires Rect(g, w, |g|) && 0 <= yhi <= |g| && Known(g, w)
    ensures CountRows(g, w, 0, yhi, 0, w, -1, -1, '.') + CountRows(g, w, 0, yhi, 0, w, -1, -1, '|') +
      CountRows(g, w, 0, yhi, 0, w, -1, -1, '#') == yhi * w
  {
    if yhi > 0 {
      CountRowsSplit(g, w, yhi - 1);
      CountRowSplit(g[yhi - 1], 0, w);
    }
  }

  /** When every acre is of a known kind, the three counts add up to the
      whole area. */
  lemma TotalsCoverArea(g: seq<seq<char>>, w: nat)
    requires Rect(g, w, |g|) && Known(g, w)
    ensures Total(g, w, '.') + Total(g, w, '|') + Total(g, w, '#') == |g| * w
  {
    CountRowsSplit(g, w, |g|);
  }

  // ---------------------------------------------------------------------
  // One minute.

  predicate Known(g: seq<seq<char>>, w: nat)
    requires Rect(g, w, |g|)
  {
    forall y, x :: 0 <= y < |g| && 0 <= x < w ==> g[y][x] in ".|#"
  }

  /** The rules of `evolve`: open ground fills with trees next to three
      or more trees, trees become a lumberyard next to three or more
      lumberyards, and a lumberyard stays only next to both a lumberyard
      and trees; any other acre raises. */
  function NextAcre(g: seq<seq<char>>, w: nat, x: nat, y: nat): Result<char>
    requires Rect(g, w, |g|) && x < w && y < |g|
  {
    var c := g[y][x];
    if c == '.' then Ok(if AdjacentCount(g, w, x, y, '|') >= 3 then '|' else '.')
    else if c == '|' then Ok(if AdjacentCount(g, w, x, y, '#') >= 3 then '#' else '|')
    else if c == '#' then Ok(if AdjacentCount(g, w, x, y, '#') >= 1 && AdjacentCount(g, w, x, y, '|') >= 1 then '#' else '.')
    else Fail("WAT")
  }

  /** The kind that follows `c`: open ground, trees, lumberyard, open
      ground. */
  function Succ(c: char): char
  {
    if c == '.' then '|' else if c == '|' then '#' else '.'
  }

  /** An acre fails exactly when its kind is unknown, and otherwise either
      keeps its kind or takes the next one in the cycle. */
  lemma NextAcreSteps(g: seq<seq<char>>, w: nat, x: nat, y: nat)
    requires Rect(g, w, |g|) && x < w && y < |g|
    ensures NextAcre(g, w, x, y).Fail? <==> g[y][x] !in ".|#"
    ensures NextAcre(g, w, x, y).Ok? ==> NextAcre(g, w, x, y).value in {g[y][x], Succ(g[y][x])}
  {
  }

  /** The whole area one minute later, every acre computed from the old
      grid. */
  function Next(g: seq<seq<char>>, w: nat): (r: seq<seq<char>>)
    requires Rect(g, w, |g|) && Known(g, w)
    ensures Rect(r, w, |g|)
  {
    seq(|g|, y requires 0 <= y < |g| => seq(w, x requires 0 <= x < w => NextAcre(g, w, x, y).value))
  }

  // ---------------------------------------------------------------------
  // The forest with its two buffers.

  ghost function Grid(a: array2<char>): (g: seq<seq<char>>)
    reads a
    ensures Rect(g, a.Length1, a.Length0)
  {
    seq(a.Length0, y requires 0 <= y < a.Length0 reads a => seq(a.Length1, x requires 0 <= x < a.Length1 reads a => a[y, x]))
  }

  lemma GridAt(a: array2<char>, x: int, y: int)
    requires 0 <= y < a.Length0 && 0 <= x < a.Length1
    ensures Grid(a)[y][x] == a[y, x]
  {
  }

  /** A buffer holding the next minute of every acre of `g` is `Next(g)`. */
  lemma GridIsNext(a: array2<char>, g: seq<seq<char>>, w: nat)
    requires Rect(g, w, |g|) && Known(g, w) && a.Length0 == |g| && a.Length1 == w
    requires forall y, x :: 0 <= y < |g| && 0 <= x < w ==> a[y, x] == NextAcre(g, w, x, y).value
    ensures Grid(a) == Next(g, w)
  {
    forall y | 0 <= y < |g|
      ensures Grid(a)[y] == Next(g, w)[y]
    {
      forall x | 0 <= x < w
        ensures Grid(a)[y][x] == Next(g, w)[y][x]
      {
        GridAt(a, x, y);
      }
    }
  }

  class Forest {
    var scan: array2<char>
    var nextScan: array2?<char>
    const width: nat
    const height: nat

    /** Both buffers have the size of the area and are distinct arrays. */
    ghost predicate Valid()
      reads this
    {
      scan.Length0 == height && scan.Length1 == width &&
      (nextScan != null ==> nextScan != scan && nextScan.Length0 == height && nextScan.Length1 == width)
    }

    /** `Forest.new`; the second buffer appears on the first `tick`. */
    constructor(scan: array2<char>)
      ensures Valid() && this.scan == scan && nextScan == null
      ensures width == scan.Length1 && height == scan.Length0
    {
      this.scan := scan;
      nextScan := null;
      width, height := scan.Length1, scan.Length0;
    }

    /** `count_adjacent`. */
    method CountAdjacent(x: nat, y: nat, t: char) returns (count: nat)
      requires Valid() && x < width && y < height
      ensures count == AdjacentCount(Grid(scan), width, x, y, t)
    {
      ghost var g := Grid(scan);
      var ylo, yhi := Max(y - 1, 0), Min(y + 1, height - 1);
      var xlo, xhi := Max(x - 1, 0), Min(x + 1, width - 1);
      count := 0;
      var ay := ylo;
      while ay <= yhi
        invariant ylo <= ay <= yhi + 1
        invariant count == CountRows(g, width, ylo, ay, xlo, xhi + 1, x, y, t)
      {
        var ax := xlo;
        while ax <= xhi
          invariant xlo <= ax <= xhi + 1
          invariant count == CountRows(g, width, ylo, ay, xlo, xhi + 1, x, y, t) +
            CountRow(g[ay], xlo, ax, if ay == y then x else -1, t)
        {
          GridAt(scan, ax, ay);
          if !(ax == x && ay == y) && scan[ay, ax] == t {
            count := count + 1;
          }
          ax := ax + 1;
        }
        ay := ay + 1;
      }
    }

    /** `evolve`: the new kind of one acre, or the `WAT` failure. */
    method Evolve(x: nat, y: nat) returns (r: Result<char>)
      requires Valid() && x < width && y < height
      ensures r == NextAcre(Grid(scan), width, x, y)
    {
      var kind := scan[y, x];
      GridAt(scan, x, y);
      if kind == '.' {
        var trees := CountAdjacent(x, y, '|');
        r := Ok(if trees >= 3 then '|' else '.');
      } else if kind == '|' {
        var yards := CountAdjacent(x, y, '#');
        r := Ok(if yards >= 3 then '#' else '|');
      } else if kind == '#' {
        var yards := CountAdjacent(x, y, '#');
        var trees := CountAdjacent(x, y, '|');
        r := Ok(if yards >= 1 && trees >= 1 then '#' else '.');
      } else {
        r := Fail("WAT");
      }
    }

    /** The `x` loop of `tick` for row `y`: fails at the first acre of an
        unknown kind. */
    method FillRow(next: array2<char>, y: nat) returns (ok: bool)
      requires Valid() && next != scan && next.Length0 == height && next.Length1 == width && y < height
      modifies next
      ensures forall y', x' :: 0 <= y' < height && y' != y && 0 <= x' < width ==> next[y', x'] == old(next[y', x'])
      ensures ok <==> forall x :: 0 <= x < width ==> Grid(scan)[y][x] in ".|#"
      ensures ok ==> forall x :: 0 <= x < width ==> next[y, x] == NextAcre(Grid(scan), width, x, y).value
    {
      ghost var g := Grid(scan);
      for x := 0 to width
        invariant forall y', x' :: 0 <= y' < height && y' != y && 0 <= x' < width ==> next[y', x'] == old(next[y', x'])
        invariant forall x' :: 0 <= x' < x ==> g[y][x'] in ".|#" && next[y, x'] == NextAcre(g, width, x', y).value
      {
        var r := Evolve(x, y);
        NextAcreSteps(g, width, x, y);
        if r.Fail? {
          return false;
        }
        next[y, x] := r.value;
      }
      return true;
    }

    /** The `y` loop of `tick`: the second buffer receives the next minute
        of every acre, unless some acre is of an unknown kind. */
    method Fill(next: array2<char>) returns (ok: bool)
      requires Valid() && next != scan && next.Length0 == height && next.Length1 == width
      modifies next
      ensures ok <==> Known(Grid(scan), width)
      ensures ok ==> forall y, x :: 0 <= y < height && 0 <= x < width ==> next[y, x] == NextAcre(Grid(scan), width, x, y).value
    {
      ghost var g := Grid(scan);
      for y := 0 to height
        invariant forall y', x' :: 0 <= y' < y && 0 <= x' < width ==>
          g[y'][x'] in ".|#" && next[y', x'] == NextAcre(g, width, x', y').value
      {
        ok := FillRow(next, y);
        if !ok {
          return;
        }
      }
      return true;
    }

    /** `tick`: every acre of the second buffer is computed from the
        current one, then the buffers swap. */
    method Tick() returns (ok: bool)
      requires Valid()
      modifies this, nextScan
      ensures Valid()
      ensures ok <==> Known(old(Grid(scan)), width)
      ensures ok ==> Grid(scan) == Next(old(Grid(scan)), width) && nextScan == old(scan)
      ensures !ok ==> scan == old(scan) && Grid(scan) == old(Grid(scan))
    {
      if nextScan == null {
        nextScan := new char[height, width];
      }
      ghost var g := Grid(scan);
      var next := nextScan;
      ok := Fill(next);
      if ok {
        GridIsNext(next, g, width);
        scan, nextScan := next, scan;
      }
    }

    /** `count`. */
    method Count(t: char) returns (count: nat)
      requires Valid()
      ensures count == Total(Grid(scan), width, t)
    {
      ghost var g := Grid(scan);
      count := 0;
      for y := 0 to height
        invariant count == CountRows(g, width, 0, y, 0, width, -1, -1, t)
      {
        for x := 0 to width
          invariant count == CountRows(g, width, 0, y, 0, width, -1, -1, t) + CountRow(g[y], 0, x, -1, t)
        {
          GridAt(scan, x, y);
          if scan[y, x] == t {
            count := count + 1;
          }
        }
      }
    }

    /** `resource_value`: lumberyards times wooded acres. */
    method ResourceValue() returns (value: nat)
      requires Valid()
      ensures value == Total(Grid(scan), width, '#') * Total(Grid(scan), width, '|')
    {
      var yards := Count('#');
      var trees := Count('|');
      value := yards * trees;
    }
  }
}
