/** Moving points of light: every light moves by its velocity each second;
    the message shows when the bounding box of the lights is smallest,
    found by stepping until the box area grows and then stepping back. */
module StarMessage {

  datatype Pos = Pos(x: int, y: int)

  /** The positions `ps` after `k` seconds at velocities `vs`. */
  function Advance(ps: seq<Pos>, vs: seq<Pos>, k: int): (r: seq<Pos>)
    requires |ps| == |vs|
    ensures |r| == |ps|
  {
    if ps == [] then []
    else
      var n := |ps| - 1;
      Advance(ps[..n], vs[..n], k) + [Pos(ps[n].x + k * vs[n].x, ps[n].y + k * vs[n].y)]
  }

  /** Each light moves by `k` times its own velocity. */
  lemma {:induction false} AdvanceAt(ps: seq<Pos>, vs: seq<Pos>, k: int)
    requires |ps| == |vs|
    ensures forall i :: 0 <= i < |ps| ==> Advance(ps, vs, k)[i] == Pos(ps[i].x + k * vs[i].x, ps[i].y + k * vs[i].y)
  {
    if ps != [] {
      var n := |ps| - 1;
      AdvanceAt(ps[..n], vs[..n], k);
    }
  }

  /** Advancing by `a` seconds and then by `b` is advancing by `a + b`;
      in particular one second back undoes one second forward. */
  lemma AdvanceTwice(ps: seq<Pos>, vs: seq<Pos>, a: int, b: int)
    requires |ps| == |vs|
    ensures Advance(Advance(ps, vs, a), vs, b) == Advance(ps, vs, a + b)
  {
    var r := Advance(Advance(ps, vs, a), vs, b);
    AdvanceAt(ps, vs, a);
    AdvanceAt(Advance(ps, vs, a), vs, b);
    AdvanceAt(ps, vs, a + b);
    forall i | 0 <= i < |ps|
      ensures r[i] == Advance(ps, vs, a + b)[i]
    {
      assert a * vs[i].x + b * vs[i].x == (a + b) * vs[i].x;
      assert a * vs[i].y + b * vs[i].y == (a + b) * vs[i].y;
    }
  }

  /** Positions that each moved `k` times their velocity are the
      advanced positions. */
  lemma Stepped(before: seq<Pos>, vs: seq<Pos>, after: seq<Pos>, k: int)
    requires |before| == |vs| == |after|
    requires forall i :: 0 <= i < |after| ==> after[i] == Pos(before[i].x + k * vs[i].x, before[i].y + k * vs[i].y)
    ensures after == Advance(before, vs, k)
  {
    AdvanceAt(before, vs, k);
  }

  // ---------------------------------------------------------------------
  // Bounding box.

  /** `BoundingBox`: rows `top .. bottom`, columns `left .. right`. */
  datatype Box = Box(top: int, bottom: int, left: int, right: int)

  function Height(b: Box): int { b.bottom - b.top }

  function Width(b: Box): int { b.right - b.left }

  /** `BoundingBox#area`. */
  function BoxArea(b: Box): int
  {
    Height(b) * Width(b)
  }

  /** A box that is not upside down has a non-negative area. */
  lemma AreaNonNegative(b: Box)
    requires b.top <= b.bottom && b.left <= b.right
    ensures BoxArea(b) >= 0
  {
    assert Height(b) >= 0 && Width(b) >= 0;
  }

  /** `b` is the tightest box around `ps`: each side is reached by some
      position and no position lies beyond it. */
  ghost predicate Tight(ps: seq<Pos>, b: Box)
  {
    (exists i :: 0 <= i < |ps| && ps[i].x == b.left) && (exists i :: 0 <= i < |ps| && ps[i].x == b.right) &&
    (exists i :: 0 <= i < |ps| && ps[i].y == b.top) && (exists i :: 0 <= i < |ps| && ps[i].y == b.bottom) &&
    forall i :: 0 <= i < |ps| ==> b.left <= ps[i].x <= b.right && b.top <= ps[i].y <= b.bottom
  }

  predicate Inside(b: Box, p: Pos)
  {
    b.left <= p.x <= b.right && b.top <= p.y <= b.bottom
  }

  /** The box around `ps`, computed position by position. */
  function BoxOf(ps: seq<Pos>): Box
    requires ps != []
  {
    if |ps| == 1 then Box(ps[0].y, ps[0].y, ps[0].x, ps[0].x)
    else
      var n := |ps| - 1;
      var b := BoxOf(ps[..n]);
      var p := ps[n];
      Box(if p.y < b.top then p.y else b.top, if p.y > b.bottom then p.y else b.bottom,
          if p.x < b.left then p.x else b.left, if p.x > b.right then p.x else b.right)
  }

  /** The computed box is the tight one. */
  lemma {:induction false} BoxOfTight(ps: seq<Pos>)
    requires ps != []
    ensures Tight(ps, BoxOf(ps))
  {
    if |ps| > 1 {
      var n := |ps| - 1;
      BoxOfTight(ps[..n]);
      assert forall i :: 0 <= i < n ==> ps[..n][i] == ps[i];
    }
  }

  /** Only one box is tight around a list of positions. */
  lemma TightUnique(ps: seq<Pos>, b: Box, c: Box)
    requires Tight(ps, b) && Tight(ps, c)
    ensures b == c
  {
    var i :| 0 <= i < |ps| && ps[i].x == b.left;
    var j :| 0 <= j < |ps| && ps[j].x == c.left;
    var k :| 0 <= k < |ps| && ps[k].x == b.right;
    var l :| 0 <= l < |ps| && ps[l].x == c.right;
    var m :| 0 <= m < |ps| && ps[m].y == b.top;
    var n :| 0 <= n < |ps| && ps[n].y == c.top;
    var o :| 0 <= o < |ps| && ps[o].y == b.bottom;
    var q :| 0 <= q < |ps| && ps[q].y == c.bottom;
  }

  /** Every lit position lies in the box, and the box's area is never
      negative. */
  lemma LitInsideBox(ps: seq<Pos>, p: Pos)
    requires ps != []
    ensures p in ps ==> Inside(BoxOf(ps), p)
    ensures BoxArea(BoxOf(ps)) >= 0
  {
    var b := BoxOf(ps);
    BoxOfTight(ps);
    assert b.top <= ps[0].y <= b.bottom && b.left <= ps[0].x <= b.right;
    AreaNonNegative(b);
  }

  /** The area of the lights' box after `k` seconds. */
  function AreaAfter(ps: seq<Pos>, vs: seq<Pos>, k: int): int
    requires |ps| == |vs| && ps != []
  {
    BoxArea(BoxOf(Advance(ps, vs, k)))
  }

  /** The areas of the first `m` seconds, from second 0. */
  function AreasUpTo(ps: seq<Pos>, vs: seq<Pos>, m: nat): (r: seq<int>)
    requires |ps| == |vs| && ps != []
    ensures |r| == m
  {
    if m == 0 then [] else AreasUpTo(ps, vs, m - 1) + [AreaAfter(ps, vs, m - 1)]
  }

  /** Entry `k` is the area after `k` seconds. */
  lemma {:induction false} AreasUpToAt(ps: seq<Pos>, vs: seq<Pos>, m: nat, k: nat)
    requires |ps| == |vs| && ps != [] && k < m
    ensures AreasUpTo(ps, vs, m)[k] == AreaAfter(ps, vs, k)
  {
    if k < m - 1 {
      AreasUpToAt(ps, vs, m - 1, k);
    }
  }

  /** Each area is no larger than any before it. */
  predicate NotGrowing(areas: seq<int>)
  {
    forall i, j :: 0 <= i <= j < |areas| ==> areas[j] <= areas[i]
  }

  /** A value no larger than the last keeps a list not growing. */
  lemma NotGrowingSnoc(areas: seq<int>, a: int)
    requires areas != [] && NotGrowing(areas) && a <= areas[|areas| - 1]
    ensures NotGrowing(areas + [a])
  {
  }

  // ---------------------------------------------------------------------
  // Lights and the sky.

  /** `Light`: a position that moves and a fixed velocity. */
  class Light {
    var x: int
    var y: int
    const vx: int
    const vy: int

    constructor(x: int, y: int, vx: int, vy: int)
      ensures this.x == x && this.y == y && this.vx == vx && this.vy == vy
    {
      this.x, this.y, this.vx, this.vy := x, y, vx, vy;
    }

    /** `Light#move!`. */
    method Move()
      modifies this
      ensures x == old(x) + vx && y == old(y) + vy
    {
      x, y := x + vx, y + vy;
    }

    /** `Light#move_back!`. */
    method MoveBack()
      modifies this
      ensures x == old(x) - vx && y == old(y) - vy
    {
      x, y := x - vx, y - vy;
    }
  }

  function Positions(ls: seq<Light>): (r: seq<Pos>)
    reads set l | l in ls
    ensures |r| == |ls| && forall i :: 0 <= i < |ls| ==> r[i] == Pos(ls[i].x, ls[i].y)
  {
    if ls == [] then [] else Positions(ls[..|ls| - 1]) + [Pos(ls[|ls| - 1].x, ls[|ls| - 1].y)]
  }

  function Velocities(ls: seq<Light>): (r: seq<Pos>)
    ensures |r| == |ls| && forall i :: 0 <= i < |ls| ==> r[i] == Pos(ls[i].vx, ls[i].vy)
  {
    if ls == [] then [] else Velocities(ls[..|ls| - 1]) + [Pos(ls[|ls| - 1].vx, ls[|ls| - 1].vy)]
  }

  class Sky {
    const lights: seq<Light>
    var moves: int

    /** Each light is its own object. */
    ghost predicate Valid()
    {
      forall i, j :: 0 <= i < j < |lights| ==> lights[i] != lights[j]
    }

    ghost function Lit(): seq<Pos>
      reads set l | l in lights
    {
      Positions(lights)
    }

    constructor(lights: seq<Light>)
      requires forall i, j :: 0 <= i < j < |lights| ==> lights[i] != lights[j]
      ensures Valid() && this.lights == lights && moves == 0
    {
      this.lights := lights;
      moves := 0;
    }

    /** `Sky#move!`: every light one second forward. */
    method Move()
      requires Valid()
      modifies this, set l | l in lights
      ensures moves == old(moves) + 1
      ensures Lit() == Advance(old(Lit()), Velocities(lights), 1)
    {
      ghost var before := Lit();
      for i := 0 to |lights|
        invariant moves == old(moves)
        invariant forall j :: 0 <= j < i ==> lights[j].x == before[j].x + lights[j].vx && lights[j].y == before[j].y + lights[j].vy
        invariant forall j :: i <= j < |lights| ==> lights[j].x == before[j].x && lights[j].y == before[j].y
      {
        lights[i].Move();
      }
      moves := moves + 1;
      Stepped(before, Velocities(lights), Lit(), 1);
    }

    /** `Sky#move_back!`: every light one second back. */
    method MoveBack()
      requires Valid()
      modifies this, set l | l in lights
      ensures moves == old(moves) - 1
      ensures Lit() == Advance(old(Lit()), Velocities(lights), -1)
    {
      ghost var before := Lit();
      for i := 0 to |lights|
        invariant moves == old(moves)
        invariant forall j :: 0 <= j < i ==> lights[j].x == before[j].x - lights[j].vx && lights[j].y == before[j].y - lights[j].vy
        invariant forall j :: i <= j < |lights| ==> lights[j].x == before[j].x && lights[j].y == before[j].y
      {
        lights[i].MoveBack();
      }
      moves := moves - 1;
      Stepped(before, Velocities(lights), Lit(), -1);
    }

    /** `bounding_box`: the smallest and largest coordinates, starting
        from the first light. */
    method BoundingBox() returns (box: Box)
      requires lights != []
      ensures box == BoxOf(Lit())
    {
      var minX, maxX, minY, maxY := lights[0].x, lights[0].x, lights[0].y, lights[0].y;
      for i := 0 to |lights|
        invariant (minX == lights[0].x || exists j :: 0 <= j < i && lights[j].x == minX)
        invariant (maxX == lights[0].x || exists j :: 0 <= j < i && lights[j].x == maxX)
        invariant (minY == lights[0].y || exists j :: 0 <= j < i && lights[j].y == minY)
        invariant (maxY == lights[0].y || exists j :: 0 <= j < i && lights[j].y == maxY)
        invariant forall j :: 0 <= j < i ==> minX <= lights[j].x <= maxX && minY <= lights[j].y <= maxY
        invariant minX <= lights[0].x <= maxX && minY <= lights[0].y <= maxY
      {
        var l := lights[i];
        minX := if l.x < minX then l.x else minX;
        minY := if l.y < minY then l.y else minY;
        maxX := if l.x > maxX then l.x else maxX;
        maxY := if l.y > maxY then l.y else maxY;
      }
      box := Box(minY, maxY, minX, maxX);
      BoxOfTight(Lit());
      TightUnique(Lit(), box, BoxOf(Lit()));
    }

    /** `Sky#area`. */
    method Area() returns (a: int)
      requires lights != []
      ensures a == BoxArea(BoxOf(Lit())) && a >= 0
    {
      var box := BoundingBox();
      LitInsideBox(Lit(), Pos(0, 0));
      a := BoxArea(box);
    }

    /** `light_at_position?`. */
    predicate LightAt(p: Pos)
      reads this, set l | l in lights
    {
      exists i :: 0 <= i < |lights| && lights[i].x == p.x && lights[i].y == p.y
    }

    /** A position is lit exactly when a light is there, and then it lies
        in the bounding box. */
    lemma LightAtInBox(p: Pos)
      requires lights != []
      ensures LightAt(p) <==> p in Lit()
      ensures LightAt(p) ==> Inside(BoxOf(Lit()), p)
    {
      if LightAt(p) {
        var i :| 0 <= i < |lights| && lights[i].x == p.x && lights[i].y == p.y;
        assert Lit()[i] == p;
      }
      if p in Lit() {
        var i :| 0 <= i < |Lit()| && Lit()[i] == p;
      }
      LitInsideBox(Lit(), p);
    }

    /** One turn of the driver loop: a step forward and the new area. */
    method StepFrom(ghost start: seq<Pos>, ghost n: nat) returns (current: int)
      requires Valid() && lights != [] && |start| == |lights|
      requires Lit() == Advance(start, Velocities(lights), n)
      modifies this, set l | l in lights
      ensures moves == old(moves) + 1 && Lit() == Advance(start, Velocities(lights), n + 1)
      ensures current == AreaAfter(start, Velocities(lights), n + 1)
    {
      Move();
      AdvanceTwice(start, Velocities(lights), n, 1);
      current := Area();
    }

    /** The step back after the area grew. */
    method StepBackTo(ghost start: seq<Pos>, ghost n: nat)
      requires Valid() && |start| == |lights|
      requires Lit() == Advance(start, Velocities(lights), n + 1)
      modifies this, set l | l in lights
      ensures moves == old(moves) - 1 && Lit() == Advance(start, Velocities(lights), n)
    {
      MoveBack();
      AdvanceTwice(start, Velocities(lights), n + 1, -1);
    }

    /** The driver loop: step while the area does not grow; once it grows,
        step back and stop. `fuel` bounds the number of steps. On success
        the sky stands `t` seconds on, the areas fell or stayed level up to
        second `t` and grow at the next second. */
    method FindMessage(fuel: nat) returns (found: bool, ghost start: seq<Pos>, ghost t: nat)
      requires Valid() && lights != []
      modifies this, set l | l in lights
      ensures start == old(Lit()) && |start| == |lights|
      ensures moves == old(moves) + t
      ensures Lit() == Advance(start, Velocities(lights), t)
      ensures NotGrowing(AreasUpTo(start, Velocities(lights), t + 1))
      ensures found ==> AreaAfter(start, Velocities(lights), t + 1) > AreaAfter(start, Velocities(lights), t)
      ensures !found ==> t == fuel
    {
      start := Lit();
      ghost var vs := Velocities(lights);
      Stepped(start, vs, start, 0);
      var previous := Area();
      ghost var areas := [previous];
      var n: nat := 0;
      while n < fuel
        invariant n <= fuel && moves == old(moves) + n && Lit() == Advance(start, vs, n)
        invariant previous == AreaAfter(start, vs, n)
        invariant areas == AreasUpTo(start, vs, n + 1) && NotGrowing(areas)
      {
        var current := StepFrom(start, n);
        if current > previous {
          StepBackTo(start, n);
          return true, start, n;
        }
        NotGrowingSnoc(areas, current);
        areas := areas + [current];
        previous := current;
        n := n + 1;
      }
      return false, start, n;
    }
  }
}
