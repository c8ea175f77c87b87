/** Nanobots in three dimensions: each has a position and a signal radius
    and reaches every position within that Manhattan distance. The bots'
    bounding box is scanned for the positions in range of the most bots. */
module Nanobots {
  import opened Wrappers

  datatype Position = Position(x: int, y: int, z: int)

  function Abs(a: int): nat
  {
    if a < 0 then -a else a
  }

  /** `Position#distance`: the Manhattan distance. */
  function Distance(p: Position, q: Position): (d: nat)
    ensures d == 0 <==> p == q
  {
    Abs(p.x - q.x) + Abs(p.y - q.y) + Abs(p.z - q.z)
  }

  /** The distance is symmetric and obeys the triangle inequality. */
  lemma DistanceMetric(p: Position, q: Position, r: Position)
    ensures Distance(p, q) == Distance(q, p)
    ensures Distance(p, r) <= Distance(p, q) + Distance(q, r)
  {
  }

  datatype Box = Box(min: Position, max: Position)

  /** `BoundingBox#volume`: the product of the absolute extents. */
  function Volume(box: Box): (v: nat)
  {
    Abs(box.max.x - box.min.x) * Abs(box.max.y - box.min.y) * Abs(box.max.z - box.min.z)
  }

  /** `p` lies in `box`, bounds included. */
  predicate Contains(box: Box, p: Position)
  {
    box.min.x <= p.x <= box.max.x && box.min.y <= p.y <= box.max.y && box.min.z <= p.z <= box.max.z
  }

  /** Box `inner` lies in box `outer`. */
  predicate Inside(inner: Box, outer: Box)
  {
    outer.min.x <= inner.min.x && inner.max.x <= outer.max.x &&
    outer.min.y <= inner.min.y && inner.max.y <= outer.max.y &&
    outer.min.z <= inner.min.z && inner.max.z <= outer.max.z
  }

  datatype Bot = Bot(position: Position, signalRadius: int)

  /** `in_range_of?`. */
  predicate InRange(bot: Bot, p: Position)
  {
    Distance(bot.position, p) <= bot.signalRadius
  }

  /** `Bot#bounding_box`: the position plus and minus the radius on each
      axis. */
  function BotBox(bot: Bot): Box
  {
    var p, r := bot.position, bot.signalRadius;
    Box(Position(p.x - r, p.y - r, p.z - r), Position(p.x + r, p.y + r, p.z + r))
  }

  /** Every position in range of a bot lies in its box, and a bot with a
      radius of `r` has a box of volume `(2r)^3`. */
  lemma BotBoxCovers(bot: Bot, p: Position)
    ensures InRange(bot, p) ==> Contains(BotBox(bot), p)
    ensures bot.signalRadius >= 0 ==> Volume(BotBox(bot)) == 8 * bot.signalRadius * bot.signalRadius * bot.signalRadius
  {
    var r := bot.signalRadius;
    if r >= 0 {
      assert Abs(2 * r) == 2 * r;
      assert Volume(BotBox(bot)) == (2 * r) * (2 * r) * (2 * r);
    }
  }

  function Min(a: int, b: int): int
  {
    if a < b then a else b
  }

  function Max(a: int, b: int): int
  {
    if a > b then a else b
  }

  lemma InsideTrans(a: Box, b: Box, c: Box)
    requires Inside(a, b) && Inside(b, c)
    ensures Inside(a, c)
  {
  }

  /** The smallest box holding both boxes. */
  function Enclose(a: Box, b: Box): Box
  {
    Box(Position(Min(a.min.x, b.min.x), Min(a.min.y, b.min.y), Min(a.min.z, b.min.z)),
        Position(Max(a.max.x, b.max.x), Max(a.max.y, b.max.y), Max(a.max.z, b.max.z)))
  }

  /** The boxes of `bots` merged in order; `None` (all fields `nil`) for
      no bot. */
  function Hull(bots: seq<Bot>): Option<Box>
  {
    if bots == [] then None
    else
      var h := Hull(bots[..|bots| - 1]);
      var b := BotBox(bots[|bots| - 1]);
      if h.None? then Some(b) else Some(Enclose(h.value, b))
  }

  /** The merged box holds every bot's box, and each of its six bounds is
      the bound of some bot's box. */
  lemma {:induction false} HullContains(bots: seq<Bot>)
    ensures Hull(bots).None? <==> bots == []
    ensures Hull(bots).Some? ==> forall i :: 0 <= i < |bots| ==> Inside(BotBox(bots[i]), Hull(bots).value)
  {
    if bots != [] {
      var n := |bots| - 1;
      var init := bots[..n];
      HullContains(init);
      if Hull(init).Some? {
        var before := Hull(init).value;
        forall i | 0 <= i < n
          ensures Inside(BotBox(bots[i]), Hull(bots).value)
        {
          assert init[i] == bots[i];
          InsideTrans(BotBox(bots[i]), before, Hull(bots).value);
        }
      }
    }
  }

  lemma {:induction false} HullIsTight(bots: seq<Bot>)
    ensures Hull(bots).Some? ==> (
      var h := Hull(bots).value;
      (exists i :: 0 <= i < |bots| && BotBox(bots[i]).min.x == h.min.x) &&
      (exists i :: 0 <= i < |bots| && BotBox(bots[i]).min.y == h.min.y) &&
      (exists i :: 0 <= i < |bots| && BotBox(bots[i]).min.z == h.min.z) &&
      (exists i :: 0 <= i < |bots| && BotBox(bots[i]).max.x == h.max.x) &&
      (exists i :: 0 <= i < |bots| && BotBox(bots[i]).max.y == h.max.y) &&
      (exists i :: 0 <= i < |bots| && BotBox(bots[i]).max.z == h.max.z))
  {
    if bots != [] {
      var n := |bots| - 1;
      var init := bots[..n];
      HullIsTight(init);
      assert forall i :: 0 <= i < n ==> init[i] == bots[i];
    }
  }

  /** `bounding_box(bots)`: the least of the bots' minimum corners and the
      greatest of their maximum corners, axis by axis; every field stays
      `nil` when there is no bot. */
  method BoundingBox(bots: seq<Bot>) returns (r: Option<Box>)
    ensures r.None? <==> bots == []
    ensures r.Some? ==> forall i :: 0 <= i < |bots| ==> Inside(BotBox(bots[i]), r.value)
    ensures r.Some? ==> (
      (exists i :: 0 <= i < |bots| && BotBox(bots[i]).min.x == r.value.min.x) &&
      (exists i :: 0 <= i < |bots| && BotBox(bots[i]).min.y == r.value.min.y) &&
      (exists i :: 0 <= i < |bots| && BotBox(bots[i]).min.z == r.value.min.z) &&
      (exists i :: 0 <= i < |bots| && BotBox(bots[i]).max.x == r.value.max.x) &&
      (exists i :: 0 <= i < |bots| && BotBox(bots[i]).max.y == r.value.max.y) &&
      (exists i :: 0 <= i < |bots| && BotBox(bots[i]).max.z == r.value.max.z))
  {
    r := None;
    for i := 0 to |bots|
      invariant r == Hull(bots[..i])
    {
      var b := BotBox(bots[i]);
      assert bots[..i + 1][..i] == bots[..i];
      if r.None? {
        r := Some(b);
      } else {
        var lo, hi := r.value.min, r.value.max;
        r := Some(Box(Position(Min(lo.x, b.min.x), Min(lo.y, b.min.y), Min(lo.z, b.min.z)),
                      Position(Max(hi.x, b.max.x), Max(hi.y, b.max.y), Max(hi.z, b.max.z))));
      }
    }
    assert bots[..|bots|] == bots;
    HullContains(bots);
    HullIsTight(bots);
  }

  // ---------------------------------------------------------------------
  // Positions in range of the most bots.

  /** `bots.count { |bot| bot.in_range_of?(position) }`. */
  function CountInRange(bots: seq<Bot>, p: Position): (n: nat)
    ensures n <= |bots|
  {
    if bots == [] then 0
    else CountInRange(bots[..|bots| - 1], p) + (if InRange(bots[|bots| - 1], p) then 1 else 0)
  }

  /** The positions `(x, y, zlo) .. (x, y, zhi)`. */
  function Line(x: int, y: int, zlo: int, zhi: int): seq<Position>
    decreases zhi - zlo
  {
    if zhi < zlo then [] else Line(x, y, zlo, zhi - 1) + [Position(x, y, zhi)]
  }

  /** The lines `ylo .. yhi` of plane `x`, each from `zlo` to `zhi`. */
  function Plane(x: int, ylo: int, yhi: int, zlo: int, zhi: int): seq<Position>
    decreases yhi - ylo
  {
    if yhi < ylo then [] else Plane(x, ylo, yhi - 1, zlo, zhi) + Line(x, yhi, zlo, zhi)
  }

  /** Every position of `box`, in the scan order of three nested `upto`
      loops: x outermost, z innermost. */
  function Scan(box: Box, xhi: int): seq<Position>
    decreases xhi - box.min.x
  {
    if xhi < box.min.x then []
    else Scan(box, xhi - 1) + Plane(xhi, box.min.y, box.max.y, box.min.z, box.max.z)
  }

  /** The positions scanned are exactly those of the box. */
  lemma {:induction false} ScanCovers(box: Box, xhi: int, p: Position)
    requires xhi <= box.max.x
    ensures p in Scan(box, xhi) <==> Contains(box, p) && p.x <= xhi
    decreases xhi - box.min.x
  {
    if xhi >= box.min.x {
      ScanCovers(box, xhi - 1, p);
      PlaneCovers(xhi, box.min.y, box.max.y, box.min.z, box.max.z, p);
    }
  }

  lemma {:induction false} PlaneCovers(x: int, ylo: int, yhi: int, zlo: int, zhi: int, p: Position)
    ensures p in Plane(x, ylo, yhi, zlo, zhi) <==> p.x == x && ylo <= p.y <= yhi && zlo <= p.z <= zhi
    decreases yhi - ylo
  {
    if yhi >= ylo {
      PlaneCovers(x, ylo, yhi - 1, zlo, zhi, p);
      LineCovers(x, yhi, zlo, zhi, p);
    }
  }

  lemma {:induction false} LineCovers(x: int, y: int, zlo: int, zhi: int, p: Position)
    ensures p in Line(x, y, zlo, zhi) <==> p.x == x && p.y == y && zlo <= p.z <= zhi
    decreases zhi - zlo
  {
    if zhi >= zlo {
      LineCovers(x, y, zlo, zhi - 1, p);
    }
  }

  /** The best count so far and the positions attaining it. */
  datatype Best = Best(positions: seq<Position>, count: int)

  /** One position of the scan: a higher count restarts the list, an equal
      one extends it. */
  function Update(bots: seq<Bot>, acc: Best, p: Position): Best
  {
    var n := CountInRange(bots, p);
    if n > acc.count then Best([p], n)
    else if n == acc.count then Best(acc.positions + [p], acc.count)
    else acc
  }

  /** The positions `ps`, one `Update` after another. */
  function Fold(bots: seq<Bot>, acc: Best, ps: seq<Position>): Best
  {
    if ps == [] then acc else Update(bots, Fold(bots, acc, ps[..|ps| - 1]), ps[|ps| - 1])
  }

  lemma {:induction false} FoldAppend(bots: seq<Bot>, acc: Best, ps: seq<Position>, qs: seq<Position>)
    ensures Fold(bots, acc, ps + qs) == Fold(bots, Fold(bots, acc, ps), qs)
    decreases |qs|
  {
    if qs == [] {
      assert ps + qs == ps;
    } else {
      var n := |qs| - 1;
      assert (ps + qs)[..|ps + qs| - 1] == ps + qs[..n];
      assert (ps + qs)[|ps + qs| - 1] == qs[n];
      FoldAppend(bots, acc, ps, qs[..n]);
    }
  }

  lemma FoldSnoc(bots: seq<Bot>, acc: Best, ps: seq<Position>, p: Position)
    ensures Fold(bots, acc, ps + [p]) == Update(bots, Fold(bots, acc, ps), p)
  {
    assert (ps + [p])[..|ps|] == ps;
  }

  /** The largest count over `ps`, 0 when empty. */
  function MaxCount(bots: seq<Bot>, ps: seq<Position>): (m: nat)
    ensures forall p :: p in ps ==> CountInRange(bots, p) <= m
    ensures ps != [] ==> exists p :: p in ps && CountInRange(bots, p) == m
  {
    if ps == [] then 0
    else
      var p := ps[|ps| - 1];
      var m := MaxCount(bots, ps[..|ps| - 1]);
      assert ps == ps[..|ps| - 1] + [p];
      if CountInRange(bots, p) > m then CountInRange(bots, p) else m
  }

  /** The positions of `ps` in range of exactly `k` bots, in order. */
  function Attaining(bots: seq<Bot>, ps: seq<Position>, k: int): seq<Position>
  {
    if ps == [] then []
    else Attaining(bots, ps[..|ps| - 1], k) + (if CountInRange(bots, ps[|ps| - 1]) == k then [ps[|ps| - 1]] else [])
  }

  lemma {:induction false} AttainingNone(bots: seq<Bot>, ps: seq<Position>, k: int)
    requires forall p :: p in ps ==> CountInRange(bots, p) < k
    ensures Attaining(bots, ps, k) == []
  {
    if ps != [] {
      assert forall p :: p in ps[..|ps| - 1] ==> p in ps;
      AttainingNone(bots, ps[..|ps| - 1], k);
    }
  }

  /** Scanning from a count of 1 and no positions ends with the largest
      count (at least 1) and exactly the positions attaining it, in scan
      order. */
  lemma {:induction false} FoldFindsOptimum(bots: seq<Bot>, ps: seq<Position>)
    ensures Fold(bots, Best([], 1), ps).count == Max(1, MaxCount(bots, ps))
    ensures Fold(bots, Best([], 1), ps).positions == Attaining(bots, ps, Max(1, MaxCount(bots, ps)))
  {
    if ps != [] {
      var init := ps[..|ps| - 1];
      var p := ps[|ps| - 1];
      assert forall q :: q in init ==> q in ps;
      FoldFindsOptimum(bots, init);
      var best := Max(1, MaxCount(bots, init));
      if CountInRange(bots, p) > best {
        AttainingNone(bots, init, CountInRange(bots, p));
      }
    }
  }

  /** `Fold` over `Line(x, y, zlo, zhi)`, one position at a time. */
  function FoldLine(bots: seq<Bot>, acc: Best, x: int, y: int, zlo: int, zhi: int): Best
    decreases zhi - zlo
  {
    if zhi < zlo then acc else Update(bots, FoldLine(bots, acc, x, y, zlo, zhi - 1), Position(x, y, zhi))
  }

  /** `Fold` over `Plane(x, ylo, yhi, zlo, zhi)`, one line at a time. */
  function FoldPlane(bots: seq<Bot>, acc: Best, x: int, ylo: int, yhi: int, zlo: int, zhi: int): Best
    decreases yhi - ylo
  {
    if yhi < ylo then acc else FoldLine(bots, FoldPlane(bots, acc, x, ylo, yhi - 1, zlo, zhi), x, yhi, zlo, zhi)
  }

  /** `Fold` over `Scan(box, xhi)`, one plane at a time. */
  function FoldScan(bots: seq<Bot>, acc: Best, box: Box, xhi: int): Best
    decreases xhi - box.min.x
  {
    if xhi < box.min.x then acc
    else FoldPlane(bots, FoldScan(bots, acc, box, xhi - 1), xhi, box.min.y, box.max.y, box.min.z, box.max.z)
  }

  lemma {:induction false} FoldLineIsFold(bots: seq<Bot>, acc: Best, x: int, y: int, zlo: int, zhi: int)
    ensures FoldLine(bots, acc, x, y, zlo, zhi) == Fold(bots, acc, Line(x, y, zlo, zhi))
    decreases zhi - zlo
  {
    if zhi >= zlo {
      FoldLineIsFold(bots, acc, x, y, zlo, zhi - 1);
      FoldSnoc(bots, acc, Line(x, y, zlo, zhi - 1), Position(x, y, zhi));
    }
  }

  lemma {:induction false} FoldPlaneIsFold(bots: seq<Bot>, acc: Best, x: int, ylo: int, yhi: int, zlo: int, zhi: int)
    ensures FoldPlane(bots, acc, x, ylo, yhi, zlo, zhi) == Fold(bots, acc, Plane(x, ylo, yhi, zlo, zhi))
    decreases yhi - ylo
  {
    if yhi >= ylo {
      var before := FoldPlane(bots, acc, x, ylo, yhi - 1, zlo, zhi);
      FoldPlaneIsFold(bots, acc, x, ylo, yhi - 1, zlo, zhi);
      FoldLineIsFold(bots, before, x, yhi, zlo, zhi);
      FoldAppend(bots, acc, Plane(x, ylo, yhi - 1, zlo, zhi), Line(x, yhi, zlo, zhi));
    }
  }

  /** Folding plane by plane and line by line is folding the scan. */
  lemma {:induction false} FoldScanIsFold(bots: seq<Bot>, acc: Best, box: Box, xhi: int)
    ensures FoldScan(bots, acc, box, xhi) == Fold(bots, acc, Scan(box, xhi))
    decreases xhi - box.min.x
  {
    if xhi >= box.min.x {
      var before := FoldScan(bots, acc, box, xhi - 1);
      FoldScanIsFold(bots, acc, box, xhi - 1);
      FoldPlaneIsFold(bots, before, xhi, box.min.y, box.max.y, box.min.z, box.max.z);
      FoldAppend(bots, acc, Scan(box, xhi - 1), Plane(xhi, box.min.y, box.max.y, box.min.z, box.max.z));
    }
  }

  /** The positions `(x, y, zlo) .. (x, y, zhi)`, in range counted. */
  method ScanLine(bots: seq<Bot>, x: int, y: int, zlo: int, zhi: int, acc: Best) returns (r: Best)
    ensures r == FoldLine(bots, acc, x, y, zlo, zhi)
  {
    r := acc;
    var z := zlo;
    while z <= zhi
      invariant zlo <= z <= Max(zlo, zhi + 1)
      invariant r == FoldLine(bots, acc, x, y, zlo, z - 1)
      decreases zhi - z
    {
      var position := Position(x, y, z);
      var botsInRange := CountInRange(bots, position);
      if botsInRange > r.count {
        r := Best([position], botsInRange);
      } else if botsInRange == r.count {
        r := Best(r.positions + [position], r.count);
      }
      z := z + 1;
    }
  }

  /** Plane `x` of the scan. */
  method ScanPlane(bots: seq<Bot>, x: int, box: Box, acc: Best) returns (r: Best)
    ensures r == FoldPlane(bots, acc, x, box.min.y, box.max.y, box.min.z, box.max.z)
  {
    r := acc;
    var y := box.min.y;
    while y <= box.max.y
      invariant box.min.y <= y <= Max(box.min.y, box.max.y + 1)
      invariant r == FoldPlane(bots, acc, x, box.min.y, y - 1, box.min.z, box.max.z)
      decreases box.max.y - y
    {
      r := ScanLine(bots, x, y, box.min.z, box.max.z, r);
      y := y + 1;
    }
  }

  /** `find_optimal_positions`: the largest number of bots in range of one
      position of the box (at least 1), and every position of the box in
      range of that many, in scan order. */
  method FindOptimalPositions(bots: seq<Bot>, box: Box) returns (positions: seq<Position>, maxBotsInRange: int)
    ensures maxBotsInRange == Max(1, MaxCount(bots, Scan(box, box.max.x)))
    ensures positions == Attaining(bots, Scan(box, box.max.x), maxBotsInRange)
  {
    var r := Best([], 1);
    var x := box.min.x;
    while x <= box.max.x
      invariant box.min.x <= x <= Max(box.min.x, box.max.x + 1)
      invariant r == FoldScan(bots, Best([], 1), box, x - 1)
      decreases box.max.x - x
    {
      r := ScanPlane(bots, x, box, r);
      x := x + 1;
    }
    FoldScanIsFold(bots, Best([], 1), box, box.max.x);
    FoldFindsOptimum(bots, Scan(box, box.max.x));
    positions, maxBotsInRange := r.positions, r.count;
  }

  /** Every position the scan reports lies in the box and is in range of
      the reported number of bots, and no position of the box is in range
      of more. */
  lemma OptimumIsOptimal(bots: seq<Bot>, box: Box, p: Position)
    requires Contains(box, p)
    ensures CountInRange(bots, p) <= Max(1, MaxCount(bots, Scan(box, box.max.x)))
    ensures p in Attaining(bots, Scan(box, box.max.x), Max(1, MaxCount(bots, Scan(box, box.max.x)))) <==>
      CountInRange(bots, p) == Max(1, MaxCount(bots, Scan(box, box.max.x)))
  {
    ScanCovers(box, box.max.x, p);
    AttainingMembers(bots, Scan(box, box.max.x), Max(1, MaxCount(bots, Scan(box, box.max.x))), p);
  }

  lemma {:induction false} AttainingMembers(bots: seq<Bot>, ps: seq<Position>, k: int, p: Position)
    ensures p in Attaining(bots, ps, k) <==> p in ps && CountInRange(bots, p) == k
  {
    if ps != [] {
      AttainingMembers(bots, ps[..|ps| - 1], k, p);
      assert ps == ps[..|ps| - 1] + [ps[|ps| - 1]];
    }
  }
}
