/** Mine carts on a track: every tick the carts move one cell each, in
    reading order (top row first, left to right); a cart turns on curves
    and, cyclically left / straight / right, on intersections; carts that
    meet crash and stay where they are. */
module MineCarts {
  import opened Wrappers

  // ---------------------------------------------------------------------
  // Directions and turns.

  /** `turn_left`: any other character is left alone. */
  function TurnLeft(d: char): char
  {
    if d == '<' then 'v' else if d == 'v' then '>' else if d == '>' then '^' else if d == '^' then '<' else d
  }

  /** `turn_right`. */
  function TurnRight(d: char): char
  {
    if d == '<' then '^' else if d == '^' then '>' else if d == '>' then 'v' else if d == 'v' then '<' else d
  }

  /** Left and right turns undo each other; four left turns are none. */
  lemma TurnsInverse(d: char)
    ensures TurnRight(TurnLeft(d)) == d && TurnLeft(TurnRight(d)) == d
    ensures TurnLeft(TurnLeft(TurnLeft(TurnLeft(d)))) == d
  {
  }

  /** `turn_at_curve`: `/` swaps `<` with `v` and `>` with `^`; `\` swaps
      `<` with `^` and `v` with `>`. */
  function Curve(d: char, curve: char): char
  {
    if d == '<' then (if curve == '/' then 'v' else if curve == '\\' then '^' else d)
    else if d == 'v' then (if curve == '/' then '<' else if curve == '\\' then '>' else d)
    else if d == '>' then (if curve == '/' then '^' else if curve == '\\' then 'v' else d)
    else if d == '^' then (if curve == '/' then '>' else if curve == '\\' then '<' else d)
    else d
  }

  /** Taking the same curve twice gives the direction back. */
  lemma CurveInvolution(d: char, curve: char)
    ensures Curve(Curve(d, curve), curve) == d
  {
  }

  /** The direction after the `n`-th intersection: left, straight, right,
      and so on. */
  function IntersectionTurn(d: char, n: int): char
  {
    if n % 3 == 1 then TurnLeft(d) else if n % 3 == 0 then TurnRight(d) else d
  }

  /** Three intersections in a row, starting a cycle, leave the direction
      as it was. */
  lemma IntersectionCycle(d: char, n: int)
    requires n % 3 == 0
    ensures IntersectionTurn(IntersectionTurn(IntersectionTurn(d, n + 1), n + 2), n + 3) == d
  {
    TurnsInverse(d);
  }

  /** `Cart#tick!`: one cell in the direction; no move for any other
      character. */
  function Forward(x: int, y: int, d: char): (int, int)
  {
    if d == '<' then (x - 1, y) else if d == '>' then (x + 1, y)
    else if d == '^' then (x, y - 1) else if d == 'v' then (x, y + 1)
    else (x, y)
  }

  function Abs(n: int): nat { if n < 0 then -n else n }

  /** A cart facing one of the four directions moves exactly one cell. */
  lemma ForwardOneCell(x: int, y: int, d: char)
    ensures d in "<>^v" ==> Abs(Forward(x, y, d).0 - x) + Abs(Forward(x, y, d).1 - y) == 1
    ensures d !in "<>^v" ==> Forward(x, y, d) == (x, y)
  {
  }

  // ---------------------------------------------------------------------
  // Carts as values.

  datatype CartState = CartState(x: int, y: int, direction: char, intersections: int, crashed: bool)

  /** `part_at` (`grid[y][x]`) for a cell on the grid; a blank off it. */
  function Part(grid: seq<seq<char>>, x: int, y: int): (r: char)
    ensures r != ' ' ==> 0 <= y < |grid| && 0 <= x < |grid[y]| && r == grid[y][x]
  {
    if 0 <= y < |grid| && 0 <= x < |grid[y]| then grid[y][x] else ' '
  }

  function IsCurve(part: char): bool { part == '\\' || part == '/' }

  /** One cart's move: forward, then an intersection turn, then a curve
      turn, each read at the new cell. */
  function Steer(grid: seq<seq<char>>, c: CartState): CartState
  {
    var (x, y) := Forward(c.x, c.y, c.direction);
    var moved := c.(x := x, y := y);
    var turned := if Part(grid, x, y) == '+' then
      moved.(intersections := c.intersections + 1, direction := IntersectionTurn(c.direction, c.intersections + 1))
      else moved;
    if IsCurve(Part(grid, x, y)) then turned.(direction := Curve(turned.direction, Part(grid, x, y))) else turned
  }

  /** The number of carts not crashed at cell `(x, y)`. */
  function ActiveAt(cs: seq<CartState>, x: int, y: int): nat
  {
    if cs == [] then 0
    else ActiveAt(cs[..|cs| - 1], x, y) + (var c := cs[|cs| - 1]; if !c.crashed && c.x == x && c.y == y then 1 else 0)
  }

  /** The number of carts not crashed. */
  function ActiveCount(cs: seq<CartState>): nat
  {
    if cs == [] then 0 else ActiveCount(cs[..|cs| - 1]) + (if cs[|cs| - 1].crashed then 0 else 1)
  }

  /** Every cart at `(x, y)` that has not crashed crashes. */
  function CrashAt(cs: seq<CartState>, x: int, y: int): (r: seq<CartState>)
    ensures |r| == |cs|
  {
    if cs == [] then []
    else
      var c := cs[|cs| - 1];
      CrashAt(cs[..|cs| - 1], x, y) + [if !c.crashed && c.x == x && c.y == y then c.(crashed := true) else c]
  }

  lemma {:induction false} CrashAtEach(cs: seq<CartState>, x: int, y: int)
    ensures forall i :: 0 <= i < |cs| ==>
      CrashAt(cs, x, y)[i] == if !cs[i].crashed && cs[i].x == x && cs[i].y == y then cs[i].(crashed := true) else cs[i]
  {
    if cs != [] {
      CrashAtEach(cs[..|cs| - 1], x, y);
    }
  }

  /** The cart `j` takes its turn: a crashed cart is skipped; otherwise
      it steers, and if another live cart is on its new cell, all live
      carts there crash. */
  function MoveOne(grid: seq<seq<char>>, cs: seq<CartState>, j: nat): seq<CartState>
    requires j < |cs|
  {
    if cs[j].crashed then cs
    else
      var c := Steer(grid, cs[j]);
      var moved := cs[j := c];
      if ActiveAt(moved, c.x, c.y) > 1 then CrashAt(moved, c.x, c.y) else moved
  }

  /** Where cart `j`'s turn causes a crash, if it does. */
  function CrashSite(grid: seq<seq<char>>, cs: seq<CartState>, j: nat): Option<(int, int)>
    requires j < |cs|
  {
    if cs[j].crashed then None
    else
      var c := Steer(grid, cs[j]);
      if ActiveAt(cs[j := c], c.x, c.y) > 1 then Some((c.x, c.y)) else None
  }

  predicate Indices(order: seq<int>, n: nat)
  {
    forall k :: 0 <= k < |order| ==> 0 <= order[k] < n
  }

  /** The carts after the first `k` turns of `order`. */
  function Round(grid: seq<seq<char>>, cs: seq<CartState>, order: seq<int>, k: nat): (r: seq<CartState>)
    requires Indices(order, |cs|) && k <= |order|
    ensures |r| == |cs|
  {
    if k == 0 then cs else MoveOne(grid, Round(grid, cs, order, k - 1), order[k - 1])
  }

  /** `first_crash` after the first `k` turns of `order`: set once, at the
      first crash. */
  function FirstCrash(grid: seq<seq<char>>, cs: seq<CartState>, order: seq<int>, k: nat, first: Option<(int, int)>): Option<(int, int)>
    requires Indices(order, |cs|) && k <= |order|
  {
    if k == 0 then first
    else
      var before := FirstCrash(grid, cs, order, k - 1, first);
      if before.Some? then before else CrashSite(grid, Round(grid, cs, order, k - 1), order[k - 1])
  }

  /** The carts after `n` calls of `tick!`, each a round in the reading
      order of the carts at its start. */
  function Rounds(grid: seq<seq<char>>, cs: seq<CartState>, n: nat): (r: seq<CartState>)
    ensures |r| == |cs|
  {
    if n == 0 then cs
    else
      var prev := Rounds(grid, cs, n - 1);
      var order := ReadingOrder(prev, |prev|);
      Round(grid, prev, order, |order|)
  }

  /** Exactly one live cart is left after `n` calls of `tick!`. */
  predicate AloneAfter(grid: seq<seq<char>>, cs: seq<CartState>, n: nat)
  {
    ActiveCount(Rounds(grid, cs, n)) == 1
  }

  /** No call of `tick!` before the `n`th left exactly one live cart. */
  predicate NotAloneBefore(grid: seq<seq<char>>, cs: seq<CartState>, n: nat)
  {
    n <= 1 || (NotAloneBefore(grid, cs, n - 1) && !AloneAfter(grid, cs, n - 1))
  }

  /** `NotAloneBefore` rules out every earlier round. */
  lemma {:induction false} NotAloneBeforeAll(grid: seq<seq<char>>, cs: seq<CartState>, n: nat)
    requires NotAloneBefore(grid, cs, n)
    ensures forall k :: 0 < k < n ==> !AloneAfter(grid, cs, k)
  {
    if n > 1 {
      NotAloneBeforeAll(grid, cs, n - 1);
    }
  }

  /** `first_crash` after `n` calls of `tick!`. */
  function FirstCrashes(grid: seq<seq<char>>, cs: seq<CartState>, n: nat, first: Option<(int, int)>): Option<(int, int)>
  {
    if n == 0 then first
    else
      var prev := Rounds(grid, cs, n - 1);
      var order := ReadingOrder(prev, |prev|);
      FirstCrash(grid, prev, order, |order|, FirstCrashes(grid, cs, n - 1, first))
  }

  // ---------------------------------------------------------------------
  // Properties of a round.

  /** No two live carts share a cell. */
  predicate Separated(cs: seq<CartState>)
  {
    forall i, j :: 0 <= i < j < |cs| && !cs[i].crashed && !cs[j].crashed ==> (cs[i].x, cs[i].y) != (cs[j].x, cs[j].y)
  }

  /** Counting live carts at a cell finds a second live cart there. */
  lemma {:induction false} ActiveAtTwo(cs: seq<CartState>, i: nat, j: nat)
    requires i < j < |cs| && !cs[i].crashed && !cs[j].crashed && cs[i].x == cs[j].x && cs[i].y == cs[j].y
    ensures ActiveAt(cs, cs[i].x, cs[i].y) >= 2
  {
    var n := |cs| - 1;
    if j < n {
      ActiveAtTwo(cs[..n], i, j);
    } else {
      ActiveAtOne(cs[..n], i, cs[i].x, cs[i].y);
    }
  }

  lemma {:induction false} ActiveAtOne(cs: seq<CartState>, i: nat, x: int, y: int)
    requires i < |cs| && !cs[i].crashed && cs[i].x == x && cs[i].y == y
    ensures ActiveAt(cs, x, y) >= 1
  {
    var n := |cs| - 1;
    if i < n {
      ActiveAtOne(cs[..n], i, x, y);
    }
  }

  /** A turn keeps live carts on separate cells: a cart that lands on a
      live cart crashes together with it. */
  lemma MoveOneSeparates(grid: seq<seq<char>>, cs: seq<CartState>, j: nat)
    requires j < |cs| && Separated(cs)
    ensures Separated(MoveOne(grid, cs, j))
  {
    if !cs[j].crashed {
      var c := Steer(grid, cs[j]);
      var moved := cs[j := c];
      if ActiveAt(moved, c.x, c.y) > 1 {
        var r := CrashAt(moved, c.x, c.y);
        CrashAtEach(moved, c.x, c.y);
        forall a, b | 0 <= a < b < |r| && !r[a].crashed && !r[b].crashed
          ensures (r[a].x, r[a].y) != (r[b].x, r[b].y)
        {
          assert r[a] == moved[a] && r[b] == moved[b];
        }
      } else {
        forall a, b | 0 <= a < b < |moved| && !moved[a].crashed && !moved[b].crashed
          ensures (moved[a].x, moved[a].y) != (moved[b].x, moved[b].y)
        {
          if (moved[a].x, moved[a].y) == (moved[b].x, moved[b].y) {
            if a == j || b == j {
              ActiveAtTwo(moved, a, b);
            }
            assert false;
          }
        }
      }
    }
  }

  /** Live carts stay on separate cells through a whole round. */
  lemma {:induction false} RoundSeparates(grid: seq<seq<char>>, cs: seq<CartState>, order: seq<int>, k: nat)
    requires Indices(order, |cs|) && k <= |order| && Separated(cs)
    ensures Separated(Round(grid, cs, order, k))
  {
    if k > 0 {
      RoundSeparates(grid, cs, order, k - 1);
      MoveOneSeparates(grid, Round(grid, cs, order, k - 1), order[k - 1]);
    }
  }

  /** A crashed cart stays crashed and does not move. */
  lemma MoveOneKeepsWrecks(grid: seq<seq<char>>, cs: seq<CartState>, j: nat, i: nat)
    requires j < |cs| && i < |cs| && cs[i].crashed
    ensures MoveOne(grid, cs, j)[i] == cs[i]
  {
    if !cs[j].crashed {
      var c := Steer(grid, cs[j]);
      CrashAtEach(cs[j := c], c.x, c.y);
    }
  }

  /** Without live carts a round changes nothing, so `run` would never
      see exactly one live cart. */
  lemma {:induction false} RoundWithoutLiveCarts(grid: seq<seq<char>>, cs: seq<CartState>, order: seq<int>, k: nat)
    requires Indices(order, |cs|) && k <= |order| && forall i :: 0 <= i < |cs| ==> cs[i].crashed
    ensures Round(grid, cs, order, k) == cs
  {
    if k > 0 {
      RoundWithoutLiveCarts(grid, cs, order, k - 1);
    }
  }

  // ---------------------------------------------------------------------
  // Reading order.

  /** Cart `a` comes no later than cart `b` in reading order. */
  predicate NotAfter(a: CartState, b: CartState)
  {
    a.y < b.y || (a.y == b.y && a.x <= b.x)
  }

  predicate SortedBy(cs: seq<CartState>, order: seq<int>)
    requires Indices(order, |cs|)
  {
    forall a, b :: 0 <= a < b < |order| ==> NotAfter(cs[order[a]], cs[order[b]])
  }

  /** Index `i` placed before the first index of `order` it does not come
      after. */
  function Insert(cs: seq<CartState>, order: seq<int>, i: nat): (r: seq<int>)
    requires i < |cs| && Indices(order, |cs|)
    ensures Indices(r, |cs|)
    ensures r != [] && (r[0] == i || (order != [] && r[0] == order[0]))
  {
    if order == [] then [i]
    else if NotAfter(cs[i], cs[order[0]]) then [i] + order
    else
      assert order == [order[0]] + order[1..];
      [order[0]] + Insert(cs, order[1..], i)
  }

  /** Insertion adds `i` once and keeps every other index. */
  lemma {:induction false} InsertCounts(cs: seq<CartState>, order: seq<int>, i: nat, m: int)
    requires i < |cs| && Indices(order, |cs|)
    ensures Occurrences(Insert(cs, order, i), m) == Occurrences(order, m) + (if m == i then 1 else 0)
  {
    if order != [] && !NotAfter(cs[i], cs[order[0]]) {
      InsertCounts(cs, order[1..], i, m);
      assert ([order[0]] + Insert(cs, order[1..], i))[1..] == Insert(cs, order[1..], i);
    } else if order != [] {
      assert ([i] + order)[1..] == order;
    }
  }

  /** Insertion keeps the order sorted. */
  lemma {:induction false} InsertSorted(cs: seq<CartState>, order: seq<int>, i: nat)
    requires i < |cs| && Indices(order, |cs|) && SortedBy(cs, order)
    ensures SortedBy(cs, Insert(cs, order, i))
  {
    if order != [] && !NotAfter(cs[i], cs[order[0]]) {
      var rest := Insert(cs, order[1..], i);
      InsertSorted(cs, order[1..], i);
      assert NotAfter(cs[order[0]], cs[rest[0]]);
      var r := [order[0]] + rest;
      assert Insert(cs, order, i) == r;
      forall a, b | 0 <= a < b < |r|
        ensures NotAfter(cs[r[a]], cs[r[b]])
      {
        if a == 0 && b > 1 {
          assert NotAfter(cs[rest[0]], cs[rest[b - 1]]);
        }
      }
    }
  }

  /** `@carts.sort` by row, then column, in reading order. */
  function ReadingOrder(cs: seq<CartState>, n: nat): (r: seq<int>)
    requires n <= |cs|
    ensures Indices(r, |cs|)
  {
    if n == 0 then [] else Insert(cs, ReadingOrder(cs, n - 1), n - 1)
  }

  /** The reading order is sorted by row, then column. */
  lemma {:induction false} ReadingOrderSorted(cs: seq<CartState>, n: nat)
    requires n <= |cs|
    ensures SortedBy(cs, ReadingOrder(cs, n))
  {
    if n > 0 {
      ReadingOrderSorted(cs, n - 1);
      InsertSorted(cs, ReadingOrder(cs, n - 1), n - 1);
    }
  }

  /** The reading order lists each of the carts exactly once. */
  lemma {:induction false} ReadingOrderPermutes(cs: seq<CartState>, n: nat, m: int)
    requires n <= |cs|
    ensures Occurrences(ReadingOrder(cs, n), m) == if 0 <= m < n then 1 else 0
  {
    if n > 0 {
      ReadingOrderPermutes(cs, n - 1, m);
      InsertCounts(cs, ReadingOrder(cs, n - 1), n - 1, m);
    }
  }

  // ---------------------------------------------------------------------
  // Carts and track as objects.

  class Cart {
    var x: int
    var y: int
    var direction: char
    var intersections: int
    var crashed: bool

    constructor(x: int, y: int, direction: char)
      ensures this.x == x && this.y == y && this.direction == direction
      ensures intersections == 0 && !crashed
    {
      this.x, this.y, this.direction := x, y, direction;
      intersections, crashed := 0, false;
    }

    function State(): CartState
      reads this
    {
      CartState(x, y, direction, intersections, crashed)
    }

    /** `Cart#tick!`. */
    method Tick()
      modifies this
      ensures (x, y) == Forward(old(x), old(y), direction) && State() == old(State()).(x := x, y := y)
    {
      x, y := Forward(x, y, direction).0, Forward(x, y, direction).1;
    }

    /** `turn_at_intersection`. */
    method TurnAtIntersection()
      modifies this
      ensures intersections == old(intersections) + 1
      ensures State() == old(State()).(intersections := intersections, direction := IntersectionTurn(old(direction), intersections))
    {
      intersections := intersections + 1;
      if intersections % 3 == 1 {
        direction := TurnLeft(direction);
      } else if intersections % 3 == 0 {
        direction := TurnRight(direction);
      }
    }

    /** `turn_at_curve`. */
    method TurnAtCurve(curve: char)
      modifies this
      ensures State() == old(State()).(direction := Curve(old(direction), curve))
    {
      direction := Curve(direction, curve);
    }

    /** `crashed!`. */
    method Crash()
      modifies this
      ensures State() == old(State()).(crashed := true)
    {
      crashed := true;
    }
  }

  function States(carts: seq<Cart>): (r: seq<CartState>)
    reads carts
    ensures |r| == |carts|
  {
    if carts == [] then [] else States(carts[..|carts| - 1]) + [carts[|carts| - 1].State()]
  }

  /** Entry `i` is the state of cart `i`. */
  lemma {:induction false} StatesAt(carts: seq<Cart>)
    ensures forall i :: 0 <= i < |carts| ==> States(carts)[i] == carts[i].State()
  {
    if carts != [] {
      StatesAt(carts[..|carts| - 1]);
    }
  }

  class Track {
    const grid: seq<seq<char>>
    const carts: seq<Cart>
    var firstCrash: Option<(int, int)>
    var lastRemaining: Option<(int, int)>

    /** Each cart is its own object. */
    ghost predicate Valid()
    {
      forall i, j :: 0 <= i < j < |carts| ==> carts[i] != carts[j]
    }

    ghost function Carts(): seq<CartState>
      reads carts
    {
      States(carts)
    }

    constructor(grid: seq<seq<char>>, carts: seq<Cart>)
      requires forall i, j :: 0 <= i < j < |carts| ==> carts[i] != carts[j]
      ensures Valid() && this.grid == grid && this.carts == carts
      ensures firstCrash == None && lastRemaining == None
    {
      this.grid, this.carts := grid, carts;
      firstCrash, lastRemaining := None, None;
    }

    /** `carts_at`: the live carts at `(x, y)`. */
    function CartsAt(x: int, y: int, n: nat): (r: seq<Cart>)
      requires n <= |carts|
      reads carts
      ensures forall k :: 0 <= k < |r| ==> !r[k].crashed && r[k].x == x && r[k].y == y
      ensures |r| == ActiveAt(States(carts)[..n], x, y)
    {
      if n == 0 then []
      else
        var c := carts[n - 1];
        StatesAt(carts);
        assert States(carts)[..n][..n - 1] == States(carts)[..n - 1];
        assert carts[..n] == carts[..n - 1] + [c];
        CartsAt(x, y, n - 1) + (if !c.crashed && c.x == x && c.y == y then [c] else [])
    }

    /** `colliding_carts.each(&:crashed!)`: every live cart at `(x, y)`
        crashes. */
    method CrashAll(x: int, y: int)
      requires Valid()
      modifies carts
      ensures Carts() == CrashAt(old(Carts()), x, y)
    {
      ghost var before := Carts();
      StatesAt(carts);
      CrashAtEach(before, x, y);
      for i := 0 to |carts|
        invariant forall m :: 0 <= m < |carts| ==>
          carts[m].State() == if m < i then CrashAt(before, x, y)[m] else before[m]
      {
        if !carts[i].crashed && carts[i].x == x && carts[i].y == y {
          carts[i].Crash();
        }
      }
      StatesAt(carts);
    }

    /** A live cart's `tick!` and turns: only cart `j` changes. */
    method SteerCart(j: nat)
      requires Valid() && j < |carts|
      modifies carts[j]
      ensures Carts() == old(Carts())[j := Steer(grid, old(Carts())[j])]
    {
      var cart := carts[j];
      ghost var before := Carts();
      StatesAt(carts);
      cart.Tick();
      if Part(grid, cart.x, cart.y) == '+' {
        cart.TurnAtIntersection();
      }
      if IsCurve(Part(grid, cart.x, cart.y)) {
        cart.TurnAtCurve(Part(grid, cart.x, cart.y));
      }
      assert cart.State() == Steer(grid, before[j]);
      StatesAt(carts);
    }

    /** `carts_at(x, y)` and the crash of all of them when there are
        several. */
    method Collide(x: int, y: int) returns (collided: bool)
      requires Valid()
      modifies carts
      ensures collided <==> ActiveAt(old(Carts()), x, y) > 1
      ensures Carts() == if collided then CrashAt(old(Carts()), x, y) else old(Carts())
    {
      var colliding := CartsAt(x, y, |carts|);
      assert States(carts)[..|carts|] == States(carts);
      collided := |colliding| > 1;
      if collided {
        CrashAll(x, y);
      }
    }

    /** The turn of cart `j` inside `tick!`; `site` is the cell where it
        crashes, if it does. */
    method MoveCart(j: nat) returns (site: Option<(int, int)>)
      requires Valid() && j < |carts|
      modifies carts
      ensures Carts() == MoveOne(grid, old(Carts()), j)
      ensures site == CrashSite(grid, old(Carts()), j)
    {
      var cart := carts[j];
      StatesAt(carts);
      if cart.crashed {
        assert old(Carts())[j].crashed;
        return None;
      }
      SteerCart(j);
      StatesAt(carts);
      var x, y := cart.x, cart.y;
      assert (x, y) == (Carts()[j].x, Carts()[j].y);
      var collided := Collide(x, y);
      site := if collided then Some((x, y)) else None;
    }

    /** The turns of the carts listed in `order`, one after the other. */
    method TakeTurns(order: seq<int>)
      requires Valid() && Indices(order, |carts|)
      modifies this, carts
      ensures Carts() == Round(grid, old(Carts()), order, |order|)
      ensures firstCrash == FirstCrash(grid, old(Carts()), order, |order|, old(firstCrash))
      ensures lastRemaining == old(lastRemaining)
    {
      ghost var start, first := Carts(), firstCrash;
      for k := 0 to |order|
        invariant Carts() == Round(grid, start, order, k)
        invariant firstCrash == FirstCrash(grid, start, order, k, first)
        invariant lastRemaining == old(lastRemaining)
      {
        ghost var before := Carts();
        var site := MoveCart(order[k]);
        assert Carts() == Round(grid, start, order, k + 1);
        assert site == CrashSite(grid, before, order[k]);
        KeepFirstCrash(site);
      }
    }

    /** `@first_crash ||= site`. */
    method KeepFirstCrash(site: Option<(int, int)>)
      modifies this
      ensures firstCrash == if old(firstCrash).Some? then old(firstCrash) else site
      ensures lastRemaining == old(lastRemaining) && Carts() == old(Carts())
    {
      if firstCrash.None? {
        firstCrash := site;
      }
    }

    /** `@last_remaining = ...`. */
    method SetLastRemaining(cell: (int, int))
      modifies this
      ensures lastRemaining == Some(cell)
      ensures firstCrash == old(firstCrash) && Carts() == old(Carts())
    {
      lastRemaining := Some(cell);
    }

    /** `last_remaining` holds the cell of a live cart. */
    ghost predicate SurvivorRecorded()
      reads this, carts
    {
      lastRemaining.Some? &&
      exists i :: 0 <= i < |carts| && !Carts()[i].crashed && lastRemaining.value == (Carts()[i].x, Carts()[i].y)
    }

    /** `Track#tick!`: every cart in reading order takes its turn; `done`
        when exactly one live cart remains, whose cell is recorded. */
    method Tick() returns (done: bool)
      requires Valid()
      modifies this, carts
      ensures var order := ReadingOrder(old(Carts()), |carts|);
        Carts() == Round(grid, old(Carts()), order, |order|) &&
        firstCrash == FirstCrash(grid, old(Carts()), order, |order|, old(firstCrash))
      ensures done <==> ActiveCount(Carts()) == 1
      ensures done ==> SurvivorRecorded()
      ensures !done ==> lastRemaining == old(lastRemaining)
    {
      var order := ReadingOrder(States(carts), |carts|);
      TakeTurns(order);
      var live := Live();
      if |live| == 1 {
        assert live[0] in live;
        ghost var i :| 0 <= i < |carts| && carts[i] == live[0];
        StatesAt(carts);
        assert !Carts()[i].crashed && (Carts()[i].x, Carts()[i].y) == (live[0].x, live[0].y);
        SetLastRemaining((live[0].x, live[0].y));
        return true;
      }
      return false;
    }

    /** `active_carts`. */
    method Live() returns (live: seq<Cart>)
      ensures |live| == ActiveCount(Carts())
      ensures forall c :: c in live ==> c in carts && !c.crashed
    {
      live := [];
      StatesAt(carts);
      for i := 0 to |carts|
        invariant |live| == ActiveCount(States(carts)[..i])
        invariant forall c :: c in live ==> c in carts && !c.crashed
      {
        assert States(carts)[..i + 1][..i] == States(carts)[..i];
        if !carts[i].crashed {
          live := live + [carts[i]];
        }
      }
      assert States(carts)[..|carts|] == States(carts);
    }

    /** The state after `rounds` calls of `tick!` from carts `start` and
        first crash `first`: the carts and first crash those rounds give,
        no earlier round left a lone cart, and `done` when this one did,
        with the survivor's cell recorded. */
    ghost predicate Played(start: seq<CartState>, first: Option<(int, int)>, rounds: nat, done: bool)
      reads this, carts
    {
      && Carts() == Rounds(grid, start, rounds)
      && firstCrash == FirstCrashes(grid, start, rounds, first)
      && NotAloneBefore(grid, start, rounds)
      && (done <==> rounds > 0 && ActiveCount(Carts()) == 1)
      && (done ==> SurvivorRecorded())
    }

    /** `run`: tick until one live cart remains, for at most `fuel` ticks. */
    method Run(fuel: nat) returns (done: bool, rounds: nat)
      requires Valid()
      modifies this, carts
      ensures rounds <= fuel && (!done ==> rounds == fuel)
      ensures Played(old(Carts()), old(firstCrash), rounds, done)
    {
      ghost var start, first := Carts(), firstCrash;
      rounds := 0;
      done := false;
      while rounds < fuel && !done
        invariant rounds <= fuel && Played(start, first, rounds, done)
      {
        done := PlayRound(start, first, rounds);
        rounds := rounds + 1;
      }
    }

    /** One turn of `run`'s loop: a call of `tick!` after `rounds` calls
        that left no lone cart. */
    method PlayRound(ghost start: seq<CartState>, ghost first: Option<(int, int)>, rounds: nat) returns (done: bool)
      requires Valid() && Played(start, first, rounds, false)
      modifies this, carts
      ensures Played(start, first, rounds + 1, done)
    {
      assert NotAloneBefore(grid, start, rounds + 1);
      done := Tick();
      assert Carts() == Rounds(grid, start, rounds + 1);
    }
  }
}
