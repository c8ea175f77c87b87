/**
  The cave combat of day 15: elves and goblins on a map of walls and open
  cells take turns in reading order; each unit attacks an adjacent enemy
  or first steps towards the nearest cell next to one, found by a
  breadth-first search.
*/
module CaveCombat {
  import opened Wrappers

  /** A `Position` struct: column `x`, row `y`. */
  datatype Pos = Pos(x: int, y: int)

  /** Reading order: top to bottom, then left to right. */
  predicate Before(p: Pos, q: Pos)
  {
    p.y < q.y || (p.y == q.y && p.x < q.x)
  }

  /** Two cells one step apart, horizontally or vertically. */
  predicate Neighbours(p: Pos, q: Pos)
  {
    (p.x == q.x && (q.y == p.y - 1 || q.y == p.y + 1)) || (p.y == q.y && (q.x == p.x - 1 || q.x == p.x + 1))
  }

  /** `adjacent`: up, left, right, down. */
  function Adjacent(p: Pos): (r: seq<Pos>)
    ensures |r| == 4
    ensures forall i, j :: 0 <= i < j < |r| ==> Before(r[i], r[j])
  {
    [Pos(p.x, p.y - 1), Pos(p.x - 1, p.y), Pos(p.x + 1, p.y), Pos(p.x, p.y + 1)]
  }

  /** The four cells of `adjacent` are exactly the neighbours. */
  lemma AdjacentAreNeighbours(p: Pos)
    ensures forall q :: q in Adjacent(p) <==> Neighbours(p, q)
  {
    var a := Adjacent(p);
    forall q | Neighbours(p, q)
      ensures q in a
    {
      if q.y == p.y - 1 {
        assert q == a[0];
      } else if q.x == p.x - 1 {
        assert q == a[1];
      } else if q.x == p.x + 1 {
        assert q == a[2];
      } else {
        assert q == a[3];
      }
    }
  }

  /** Reading order is a strict total order on cells. */
  lemma BeforeTotal(p: Pos, q: Pos, s: Pos)
    ensures !Before(p, p)
    ensures p != q ==> Before(p, q) || Before(q, p)
    ensures Before(p, q) && Before(q, s) ==> Before(p, s)
  {
  }

  /** A map whose rows all have the width of the first. */
  predicate Grid(m: seq<seq<char>>)
  {
    |m| > 0 && forall y :: 0 <= y < |m| ==> |m[y]| == |m[0]|
  }

  predicate InGrid(m: seq<seq<char>>, p: Pos)
  {
    0 <= p.y < |m| && 0 <= p.x < |m[p.y]|
  }

  /** A cell off the border of the map. */
  predicate Interior(m: seq<seq<char>>, p: Pos)
    requires Grid(m)
  {
    0 < p.y < |m| - 1 && 0 < p.x < |m[0]| - 1
  }

  /** `open?`. */
  predicate OpenAt(m: seq<seq<char>>, p: Pos)
  {
    InGrid(m, p) && m[p.y][p.x] == '.'
  }

  /** The border holds no open cell, so a step from an open cell or a
      unit never leaves the map. */
  ghost predicate Walled(m: seq<seq<char>>)
  {
    Grid(m) && forall p :: OpenAt(m, p) ==> Interior(m, p)
  }

  /** One cell of the map takes `c`. */
  function Put(m: seq<seq<char>>, p: Pos, c: char): (r: seq<seq<char>>)
    requires InGrid(m, p)
    ensures |r| == |m| && r[p.y] == m[p.y][p.x := c]
    ensures forall y :: 0 <= y < |m| && y != p.y ==> r[y] == m[y]
  {
    m[p.y := m[p.y][p.x := c]]
  }

  /** Writing a cell leaves the shape, and every other cell, as it was. */
  lemma PutCells(m: seq<seq<char>>, p: Pos, c: char)
    requires Grid(m) && InGrid(m, p)
    ensures Grid(Put(m, p, c))
    ensures forall q :: InGrid(m, q) <==> InGrid(Put(m, p, c), q)
    ensures forall q :: q != p && InGrid(m, q) ==> Put(m, p, c)[q.y][q.x] == m[q.y][q.x]
    ensures Put(m, p, c)[p.y][p.x] == c
  {
    var r := Put(m, p, c);
    forall y | 0 <= y < |r|
      ensures |r[y]| == |m[0]|
    {
    }
  }

  /** Writing a wall or a unit keeps the border free of open cells, and
      so does opening an interior cell. */
  lemma PutWalled(m: seq<seq<char>>, p: Pos, c: char)
    requires Walled(m) && InGrid(m, p) && (c != '.' || Interior(m, p))
    ensures Walled(Put(m, p, c))
  {
    PutCells(m, p, c);
    var r := Put(m, p, c);
    forall q | OpenAt(r, q)
      ensures Interior(r, q)
    {
      if q != p {
        assert OpenAt(m, q);
      }
    }
  }

  /** Cells in strictly increasing reading order, so each at most once. */
  predicate Ascending(ps: seq<Pos>)
  {
    forall i, j :: 0 <= i < j < |ps| ==> Before(ps[i], ps[j])
  }

  /** The open cells among `ps`, in their order. */
  function OpenOnly(m: seq<seq<char>>, ps: seq<Pos>): (r: seq<Pos>)
    requires Ascending(ps)
    ensures forall q :: q in r <==> q in ps && OpenAt(m, q)
    ensures Ascending(r)
  {
    if ps == [] then []
    else if OpenAt(m, ps[0]) then
      var rest := OpenOnly(m, ps[1..]);
      AscendingCons(ps, rest);
      [ps[0]] + rest
    else OpenOnly(m, ps[1..])
  }

  /** The head of an ascending list stays ahead of any ascending choice
      from its tail. */
  lemma AscendingCons(ps: seq<Pos>, rest: seq<Pos>)
    requires Ascending(ps) && |ps| > 0 && Ascending(rest)
    requires forall q :: q in rest ==> q in ps[1..]
    ensures Ascending([ps[0]] + rest)
  {
    var r := [ps[0]] + rest;
    forall i, j | 0 <= i < j < |r|
      ensures Before(r[i], r[j])
    {
      if i == 0 {
        assert r[j] in ps[1..];
        var k :| 0 <= k < |ps[1..]| && ps[1..][k] == r[j];
        assert ps[k + 1] == r[j];
      }
    }
  }

  /** `adjacent_to`: the open neighbours. */
  function AdjacentTo(m: seq<seq<char>>, p: Pos): (r: seq<Pos>)
    ensures forall q :: q in r <==> Neighbours(p, q) && OpenAt(m, q)
    ensures Ascending(r)
  {
    AdjacentAreNeighbours(p);
    OpenOnly(m, Adjacent(p))
  }

  /** The cells of `ps` that are not in `seen`, in their order. */
  function Unseen(ps: seq<Pos>, seen: set<Pos>): (r: seq<Pos>)
    requires Ascending(ps)
    ensures forall q :: q in r <==> q in ps && q !in seen
    ensures Ascending(r)
  {
    if ps == [] then []
    else if ps[0] !in seen then
      var rest := Unseen(ps[1..], seen);
      AscendingCons(ps, rest);
      [ps[0]] + rest
    else Unseen(ps[1..], seen)
  }

  /** The cells of a search list. */
  function Seen(found: seq<(Pos, nat)>): set<Pos>
  {
    set k | 0 <= k < |found| :: found[k].0
  }

  /** The open cells of a map. */
  function OpenCells(m: seq<seq<char>>): set<Pos>
  {
    set y, x | 0 <= y < |m| && 0 <= x < |m[y]| && m[y][x] == '.' :: Pos(x, y)
  }

  /** Entry `f` is one step beyond entry `e` onto an open cell. */
  predicate Link(m: seq<seq<char>>, e: (Pos, nat), f: (Pos, nat))
  {
    Neighbours(e.0, f.0) && OpenAt(m, f.0) && f.1 == e.1 + 1
  }

  /** The list `discover` builds is a breadth-first search from `start`:
      it begins at `start` with depth 0 and every entry is `InOrder`. */
  ghost predicate BreadthFirst(m: seq<seq<char>>, start: Pos, found: seq<(Pos, nat)>)
  {
    && |found| > 0 && found[0] == (start, 0)
    && (forall k :: 0 <= k < |found| ==> InOrder(m, found, k))
  }

  /** Entry `k` holds a cell no earlier entry holds, at a depth no
      earlier entry exceeds, and (after the first) one step beyond an
      earlier entry. */
  ghost predicate InOrder(m: seq<seq<char>>, found: seq<(Pos, nat)>, k: int)
    requires 0 <= k < |found|
  {
    && (forall j :: 0 <= j < k ==> found[j].0 != found[k].0 && found[j].1 <= found[k].1)
    && (k > 0 ==> exists j :: 0 <= j < k && Link(m, found[j], found[k]))
  }

  /** Every open neighbour of every cell of the list is in the list: the
      search has reached all it can. */
  ghost predicate Closed(m: seq<seq<char>>, found: seq<(Pos, nat)>)
  {
    forall k, q :: 0 <= k < |found| && Neighbours(found[k].0, q) && OpenAt(m, q) ==> q in Seen(found)
  }

  /** Every open neighbour of the first `n` cells of the list is in the
      list. */
  ghost predicate Expanded(m: seq<seq<char>>, found: seq<(Pos, nat)>, n: int)
  {
    forall k, q :: 0 <= k < n && k < |found| && Neighbours(found[k].0, q) && OpenAt(m, q) ==> q in Seen(found)
  }

  /** The loop state of `discover`: `BreadthFirst` with the earlier entry
      each later one steps from recorded in `parent`. */
  ghost predicate Search(m: seq<seq<char>>, start: Pos, found: seq<(Pos, nat)>, parent: seq<nat>)
  {
    && |found| > 0 && found[0] == (start, 0) && |parent| == |found|
    && (forall i, j :: 0 <= i < j < |found| ==> found[i].0 != found[j].0)
    && (forall i, j :: 0 <= i < j < |found| ==> found[i].1 <= found[j].1)
    && (forall k :: 0 < k < |found| ==> parent[k] < k && Link(m, found[parent[k]], found[k]))
  }

  /** The parents the search records witness the links of a breadth-first list. */
  lemma SearchIsBreadthFirst(m: seq<seq<char>>, start: Pos, found: seq<(Pos, nat)>, parent: seq<nat>)
    requires Search(m, start, found, parent)
    ensures BreadthFirst(m, start, found)
  {
    forall k | 0 <= k < |found|
      ensures InOrder(m, found, k)
    {
      if k > 0 {
        assert Link(m, found[parent[k]], found[k]);
      }
    }
  }

  /** `n` copies of `i`. */
  function Copies(i: nat, n: nat): (r: seq<nat>)
    ensures |r| == n && forall k :: 0 <= k < n ==> r[k] == i
  {
    seq(n, _ => i)
  }

  /** Entries for `news`, each at depth `d`. */
  function Entries(news: seq<Pos>, d: nat): (r: seq<(Pos, nat)>)
    ensures |r| == |news| && forall k :: 0 <= k < |r| ==> r[k] == (news[k], d)
  {
    seq(|news|, k requires 0 <= k < |news| => (news[k], d))
  }

  lemma SeenAppend(found: seq<(Pos, nat)>, news: seq<Pos>, d: nat)
    ensures Seen(found + Entries(news, d)) == Seen(found) + set q | q in news
  {
    var f := found + Entries(news, d);
    forall q | q in news
      ensures q in Seen(f)
    {
      var k :| 0 <= k < |news| && news[k] == q;
      assert f[|found| + k].0 == q;
    }
    forall q | q in Seen(found)
      ensures q in Seen(f)
    {
      var k :| 0 <= k < |found| && found[k].0 == q;
      assert f[k].0 == q;
    }
  }

  /** The depths of the list exceed that of entry `i` by at most one. */
  predicate Frontier(found: seq<(Pos, nat)>, i: int)
    requires 0 <= i < |found|
  {
    forall k :: 0 <= k < |found| ==> found[k].1 <= found[i].1 + 1
  }

  /** Appending the unseen open neighbours of entry `i`, one step deeper,
      keeps the search state. */
  lemma ExpandSearch(m: seq<seq<char>>, start: Pos, found: seq<(Pos, nat)>, parent: seq<nat>, i: nat, news: seq<Pos>,
                      f: seq<(Pos, nat)>, pa: seq<nat>)
    requires Search(m, start, found, parent) && i < |found| && Frontier(found, i)
    requires news == Unseen(AdjacentTo(m, found[i].0), Seen(found))
    requires f == found + Entries(news, found[i].1 + 1) && pa == parent + Copies(i, |news|)
    ensures Search(m, start, f, pa)
  {
    forall a, b | 0 <= a < b < |f|
      ensures f[a].0 != f[b].0
    {
      if b >= |found| {
        assert f[b].0 in news;
        if a < |found| {
          assert f[a].0 in Seen(found);
        } else {
          assert Before(news[a - |found|], news[b - |found|]);
        }
      }
    }
    forall a, b | 0 <= a < b < |f|
      ensures f[a].1 <= f[b].1
    {
    }
    forall k | 0 < k < |f|
      ensures pa[k] < k && Link(m, f[pa[k]], f[k])
    {
      if k >= |found| {
        assert f[k].0 in AdjacentTo(m, found[i].0);
      }
    }
  }

  /** After the append, entry `i` is expanded too. */
  lemma ExpandCovers(m: seq<seq<char>>, found: seq<(Pos, nat)>, i: nat, news: seq<Pos>, f: seq<(Pos, nat)>)
    requires i < |found| && Expanded(m, found, i) && Frontier(found, i)
    requires news == Unseen(AdjacentTo(m, found[i].0), Seen(found))
    requires f == found + Entries(news, found[i].1 + 1)
    ensures Seen(f) == Seen(found) + (set q | q in news)
    ensures |found| <= |f| && f[..|found|] == found
    ensures Frontier(f, i) && Expanded(m, f, i + 1)
  {
    assert f[..|found|] == found;
    SeenAppend(found, news, found[i].1 + 1);
    forall k, q | 0 <= k < i + 1 && k < |f| && Neighbours(f[k].0, q) && OpenAt(m, q)
      ensures q in Seen(f)
    {
      if k == i && q !in Seen(found) {
        assert q in news;
      }
    }
  }

  /** A non-empty append shrinks the set of open cells not yet seen. */
  lemma ExpandShrinks(m: seq<seq<char>>, found: seq<(Pos, nat)>, i: nat, news: seq<Pos>, f: seq<(Pos, nat)>)
    requires i < |found| && news != []
    requires news == Unseen(AdjacentTo(m, found[i].0), Seen(found))
    requires f == found + Entries(news, found[i].1 + 1)
    ensures |OpenCells(m) - Seen(f)| < |OpenCells(m) - Seen(found)|
  {
    SeenAppend(found, news, found[i].1 + 1);
    NewsAreOpen(m, news, Seen(found));
    assert OpenCells(m) - Seen(f) == (OpenCells(m) - Seen(found)) - set q | q in news;
    assert news[0] in set q | q in news;
    Shrinks(OpenCells(m) - Seen(found), set q | q in news);
  }

  /** Removing a non-empty part of a set makes it smaller. */
  lemma Shrinks(a: set<Pos>, b: set<Pos>)
    requires b <= a && b != {}
    ensures |a - b| < |a|
  {
    assert a == (a - b) + b;
  }

  lemma NewsAreOpen(m: seq<seq<char>>, news: seq<Pos>, seen: set<Pos>)
    requires forall q :: q in news ==> OpenAt(m, q) && q !in seen
    ensures (set q | q in news) <= OpenCells(m) - seen
  {
    forall q | q in news
      ensures q in OpenCells(m)
    {
      assert Pos(q.x, q.y) == q;
    }
  }

  /** The entries of `found` on cells of `targets`. */
  function Matching(found: seq<(Pos, nat)>, targets: set<Pos>): (r: seq<(Pos, nat)>)
    ensures forall e :: e in r <==> e in found && e.0 in targets
  {
    if found == [] then []
    else if found[0].0 in targets then [found[0]] + Matching(found[1..], targets)
    else Matching(found[1..], targets)
  }

  /** The least depth of a non-empty list. */
  function Least(es: seq<(Pos, nat)>): (d: nat)
    requires es != []
    ensures exists e :: e in es && e.1 == d
    ensures forall e :: e in es ==> d <= e.1
  {
    if |es| == 1 then es[0].1
    else
      var rest := Least(es[1..]);
      assert forall e :: e in es[1..] ==> e in es;
      if rest < es[0].1 then rest else es[0].1
  }

  /** The entries at depth `d`. */
  function AtDepth(es: seq<(Pos, nat)>, d: nat): (r: seq<(Pos, nat)>)
    ensures forall e :: e in r <==> e in es && e.1 == d
  {
    if es == [] then []
    else if es[0].1 == d then [es[0]] + AtDepth(es[1..], d)
    else AtDepth(es[1..], d)
  }

  /** `group_by { depth }.sort.first[1]` over the entries on cells of
      `targets`: the matching entries at their least depth, and nothing
      when none matches (`NearestIsLeast` says what that means). */
  function Nearest(found: seq<(Pos, nat)>, targets: set<Pos>): seq<(Pos, nat)>
  {
    var ms := Matching(found, targets);
    if ms == [] then [] else AtDepth(ms, Least(ms))
  }

  /** `Nearest` holds exactly the entries on cells of `targets` at the
      least depth any of them has, and is empty exactly when none of the
      cells was found. */
  lemma NearestIsLeast(found: seq<(Pos, nat)>, targets: set<Pos>)
    ensures forall e :: e in Nearest(found, targets) <==>
      e in found && e.0 in targets && forall f :: f in found && f.0 in targets ==> e.1 <= f.1
    ensures Nearest(found, targets) == [] <==> forall e :: e in found ==> e.0 !in targets
  {
    var ms := Matching(found, targets);
    if ms != [] {
      assert ms[0] in ms;
      var e :| e in ms && e.1 == Least(ms);
      assert e in Nearest(found, targets);
    }
  }

  /** `first_position`: the cell of the list first in reading order. */
  function FirstPosition(es: seq<(Pos, nat)>): (r: Pos)
    requires es != []
    ensures exists e :: e in es && e.0 == r
    ensures forall e :: e in es ==> !Before(e.0, r)
  {
    if |es| == 1 then es[0].0
    else
      var rest := FirstPosition(es[1..]);
      assert forall e :: e in es[1..] ==> e in es;
      assert forall e :: e in es ==> e == es[0] || e in es[1..];
      if Before(rest, es[0].0) then rest else es[0].0
  }

  /** The open neighbours of `p`, as the set a search looks for. */
  function Steps(m: seq<seq<char>>, p: Pos): set<Pos>
  {
    set q | q in AdjacentTo(m, p)
  }

  /** Where a unit at `here` ends up after `next_position` ranked its
      open neighbours `steps` by the search `back`: the first of the
      nearest, or `here` when the search met none. */
  function StepTowards(back: seq<(Pos, nat)>, steps: set<Pos>, here: Pos): Pos
  {
    var ns := Nearest(back, steps);
    if ns == [] then here else FirstPosition(ns)
  }

  /** The outcome of `move` for a unit at `here` on map `m`: `found`,
      the search from `here`, met an attack position exactly when
      `reachable`; the unit then heads for `chosen`, the nearest of them
      first in reading order, and ends at the neighbour the search `back`
      from `chosen` ranks first. When none is reachable the unit stays,
      and the region it can reach holds no attack position. */
  ghost predicate Moved(m: seq<seq<char>>, here: Pos, attackPositions: set<Pos>, reachable: bool,
                        found: seq<(Pos, nat)>, chosen: Pos, back: seq<(Pos, nat)>, there: Pos)
  {
    && BreadthFirst(m, here, found)
    && (reachable <==> Nearest(found, attackPositions) != [])
    && (reachable ==> chosen == FirstPosition(Nearest(found, attackPositions)))
    && (reachable ==> BreadthFirst(m, chosen, back))
    && (reachable ==> there == StepTowards(back, Steps(m, here), here))
    && (!reachable ==> there == here && Closed(m, found) && Seen(found) * attackPositions == {})
  }

  /** A unit: a `Unit` struct without its back reference to the combat. */
  class Unit {
    var position: Pos
    /** `type`: `E` for an elf, `G` for a goblin. */
    const kind: char
    const attackPower: nat
    var hitPoints: int
    var dead: bool

    constructor(position: Pos, kind: char, attackPower: nat, hitPoints: int)
      ensures this.position == position && this.kind == kind && this.attackPower == attackPower
      ensures this.hitPoints == hitPoints && !dead
    {
      this.position := position;
      this.kind := kind;
      this.attackPower := attackPower;
      this.hitPoints := hitPoints;
      dead := false;
    }
  }

  /** `living_units`: the units that are not dead. */
  function Living(us: seq<Unit>): (r: seq<Unit>)
    reads set u | u in us
    ensures forall u :: u in r ==> u in us && !u.dead
    ensures forall u :: u in us && !u.dead ==> u in r
  {
    if us == [] then []
    else if !us[0].dead then [us[0]] + Living(us[1..])
    else Living(us[1..])
  }

  /** `enemies_of`: the living units of the other kind. */
  function Enemies(us: seq<Unit>, kind: char): (r: seq<Unit>)
    reads set u | u in us
    ensures forall u :: u in r ==> u in us && !u.dead && u.kind != kind
    ensures forall u :: u in us && !u.dead && u.kind != kind ==> u in r
  {
    if us == [] then []
    else if !us[0].dead && us[0].kind != kind then [us[0]] + Enemies(us[1..], kind)
    else Enemies(us[1..], kind)
  }

  /** `adjacent_targets`: the units of `us` next to `p`. */
  function InRange(us: seq<Unit>, p: Pos): (r: seq<Unit>)
    reads set u | u in us
    ensures forall u :: u in r ==> u in us && u.position in Adjacent(p)
    ensures forall u :: u in us && u.position in Adjacent(p) ==> u in r
  {
    if us == [] then []
    else if us[0].position in Adjacent(p) then [us[0]] + InRange(us[1..], p)
    else InRange(us[1..], p)
  }

  /** The fewest hit points among `us`. */
  function MinHitPoints(us: seq<Unit>): (h: int)
    requires us != []
    reads set u | u in us
    ensures exists u :: u in us && u.hitPoints == h
    ensures forall u :: u in us ==> h <= u.hitPoints
  {
    if |us| == 1 then us[0].hitPoints
    else
      var rest := MinHitPoints(us[1..]);
      assert forall u :: u in us[1..] ==> u in us;
      if rest < us[0].hitPoints then rest else us[0].hitPoints
  }

  /** The units of `us` with `h` hit points. */
  function WithHitPoints(us: seq<Unit>, h: int): (r: seq<Unit>)
    reads set u | u in us
    ensures forall u :: u in r ==> u in us && u.hitPoints == h
    ensures forall u :: u in us && u.hitPoints == h ==> u in r
  {
    if us == [] then []
    else if us[0].hitPoints == h then [us[0]] + WithHitPoints(us[1..], h)
    else WithHitPoints(us[1..], h)
  }

  /** Units in reading order of their positions. */
  ghost predicate ReadingSorted(us: seq<Unit>)
    reads set u | u in us
  {
    forall i, j :: 0 <= i < j < |us| ==> !Before(us[j].position, us[i].position)
  }

  /** `sort_by_reading_order`, as an insertion sort. */
  function SortByReadingOrder(us: seq<Unit>): (r: seq<Unit>)
    reads set u | u in us
    ensures multiset(r) == multiset(us) && ReadingSorted(r)
  {
    if us == [] then []
    else
      assert multiset(us) == multiset(us[1..]) + multiset{us[0]} by {
        assert us == [us[0]] + us[1..];
      }
      var sorted := SortByReadingOrder(us[1..]);
      assert forall v :: v in sorted ==> v in us by {
        forall v | v in sorted
          ensures v in us
        {
          assert v in multiset(sorted);
          assert v in us[1..];
        }
      }
      Insert(us[0], sorted)
  }

  function Insert(u: Unit, sorted: seq<Unit>): (r: seq<Unit>)
    requires ReadingSorted(sorted)
    reads {u} + set v | v in sorted
    ensures multiset(r) == multiset(sorted) + multiset{u} && ReadingSorted(r)
  {
    if sorted == [] || !Before(sorted[0].position, u.position) then
      InsertFront(u, sorted);
      [u] + sorted
    else
      var rest := Insert(u, sorted[1..]);
      assert sorted == [sorted[0]] + sorted[1..];
      InsertBehind(u, sorted, rest);
      [sorted[0]] + rest
  }

  lemma InsertFront(u: Unit, sorted: seq<Unit>)
    requires ReadingSorted(sorted)
    requires sorted == [] || !Before(sorted[0].position, u.position)
    ensures ReadingSorted([u] + sorted)
  {
    var r := [u] + sorted;
    forall i, j | 0 <= i < j < |r|
      ensures !Before(r[j].position, r[i].position)
    {
      if i == 0 {
        NotBeforeTransitive(u.position, sorted[0].position, r[j].position);
      }
    }
  }

  lemma InsertBehind(u: Unit, sorted: seq<Unit>, rest: seq<Unit>)
    requires ReadingSorted(sorted) && sorted != [] && Before(sorted[0].position, u.position)
    requires multiset(rest) == multiset(sorted[1..]) + multiset{u} && ReadingSorted(rest)
    ensures ReadingSorted([sorted[0]] + rest)
  {
    var r := [sorted[0]] + rest;
    forall j | 0 < j < |r|
      ensures !Before(r[j].position, sorted[0].position)
    {
      assert r[j] in multiset(rest);
      if r[j] != u {
        assert r[j] in multiset(sorted[1..]);
        var k :| 0 <= k < |sorted[1..]| && sorted[1..][k] == r[j];
        assert sorted[k + 1] == r[j];
      }
    }
  }

  /** Reading order, taken with equality, is transitive. */
  lemma NotBeforeTransitive(p: Pos, q: Pos, s: Pos)
    requires !Before(q, p) && !Before(s, q)
    ensures !Before(s, p)
  {
  }

  /** `Unit#attack`'s choice: the adjacent target with the fewest hit
      points, first in reading order among equals. */
  function ChooseTarget(us: seq<Unit>): (t: Unit)
    requires us != []
    reads set u | u in us
    ensures t in us
    ensures forall u :: u in us ==> t.hitPoints <= u.hitPoints
    ensures forall u :: u in us && u.hitPoints == t.hitPoints ==> !Before(u.position, t.position)
  {
    var weakest := WithHitPoints(us, MinHitPoints(us));
    var sorted := SortByReadingOrder(weakest);
    var w :| w in us && w.hitPoints == MinHitPoints(us);
    assert w in multiset(sorted);
    assert sorted[0] in multiset(weakest);
    forall u | u in us && u.hitPoints == sorted[0].hitPoints
      ensures !Before(u.position, sorted[0].position)
    {
      assert u in multiset(sorted);
      var j :| 0 <= j < |sorted| && sorted[j] == u;
      if j == 0 {
        BeforeTotal(u.position, u.position, u.position);
      }
    }
    sorted[0]
  }

  /** `attack_positions`: the open cells next to some target. */
  function AttackPositions(m: seq<seq<char>>, targets: seq<Unit>): (r: set<Pos>)
    reads set t | t in targets
    ensures forall q :: q in r <==> OpenAt(m, q) && exists t :: t in targets && Neighbours(t.position, q)
  {
    if targets == [] then {}
    else
      var here := set q | q in AdjacentTo(m, targets[0].position);
      here + AttackPositions(m, targets[1..])
  }

  /** What the map says about a unit: a living one is an elf or a goblin
      with hit points left, standing inside the walls on a cell marked
      with its kind. */
  ghost predicate Standing(m: seq<seq<char>>, u: Unit)
    reads u
  {
    Grid(m) && (u.kind == 'E' || u.kind == 'G')
    && (!u.dead ==> Interior(m, u.position) && m[u.position.y][u.position.x] == u.kind && u.hitPoints > 0)
  }

  /** A cell holding an elf or a goblin. */
  predicate UnitCell(m: seq<seq<char>>, p: Pos)
  {
    InGrid(m, p) && (m[p.y][p.x] == 'E' || m[p.y][p.x] == 'G')
  }

  /** The units made from the map so far: fresh, standing on their cells,
      in reading order. */
  ghost predicate Created(m: seq<seq<char>>, elfAttackPower: nat, us: seq<Unit>)
    reads set u | u in us
  {
    && (forall u :: u in us ==>
          && !u.dead && u.hitPoints == 200 && Standing(m, u)
          && u.attackPower == (if u.kind == 'E' then elfAttackPower else 3))
    && (forall i, j :: 0 <= i < j < |us| ==> Before(us[i].position, us[j].position))
  }

  /** A new unit for a cell after all earlier ones keeps the units made
      so far in order. */
  lemma CreatedAppend(m: seq<seq<char>>, elfAttackPower: nat, us: seq<Unit>, unit: Unit)
    requires Created(m, elfAttackPower, us)
    requires !unit.dead && unit.hitPoints == 200 && Standing(m, unit)
    requires unit.attackPower == (if unit.kind == 'E' then elfAttackPower else 3)
    requires forall u :: u in us ==> Before(u.position, unit.position)
    ensures Created(m, elfAttackPower, us + [unit])
  {
    var r := us + [unit];
    forall i, j | 0 <= i < j < |r|
      ensures Before(r[i].position, r[j].position)
    {
      if j == |us| {
        assert r[i] in us;
      }
    }
  }

  /** Units made in reading order stand on distinct cells. */
  lemma CreatedApart(m: seq<seq<char>>, elfAttackPower: nat, us: seq<Unit>)
    requires Created(m, elfAttackPower, us)
    ensures forall u, v :: u in us && v in us && u != v ==> u.position != v.position
  {
    forall u, v | u in us && v in us && u != v
      ensures u.position != v.position
    {
      var i :| 0 <= i < |us| && us[i] == u;
      var j :| 0 <= j < |us| && us[j] == v;
      BeforeTotal(u.position, v.position, u.position);
    }
  }

  class Combat {
    var cave: seq<seq<char>>
    const units: seq<Unit>
    ghost const Repr: set<Unit>
    var rounds: nat

    /** `initialize`: a unit for each `E` and `G` of the map, row by row,
        with 200 hit points and an attack power of 3, or the given one for
        elves. */
    constructor(m: seq<seq<char>>, elfAttackPower: nat)
      requires Walled(m) && forall p :: UnitCell(m, p) ==> Interior(m, p)
      ensures Valid() && cave == m && rounds == 0
      ensures Created(m, elfAttackPower, units)
      ensures forall p :: UnitCell(m, p) ==> exists u :: u in units && u.position == p
    {
      var us := ScanMap(m, elfAttackPower);
      cave := m;
      units := us;
      Repr := set u | u in us;
      rounds := 0;
      new;
      CreatedApart(m, elfAttackPower, us);
    }

    /** The loop of `initialize` over the rows of the map. */
    static method ScanMap(m: seq<seq<char>>, elfAttackPower: nat) returns (us: seq<Unit>)
      requires Walled(m) && forall p :: UnitCell(m, p) ==> Interior(m, p)
      ensures Created(m, elfAttackPower, us)
      ensures forall p :: UnitCell(m, p) ==> exists u :: u in us && u.position == p
    {
      us := [];
      var y := 0;
      while y < |m|
        invariant 0 <= y <= |m|
        invariant Created(m, elfAttackPower, us)
        invariant forall u :: u in us ==> u.position.y < y
        invariant forall p :: UnitCell(m, p) && p.y < y ==> exists u :: u in us && u.position == p
      {
        us := ScanRow(m, elfAttackPower, y, us);
        y := y + 1;
      }
    }

    /** The loop of `initialize` over one row of the map. */
    static method ScanRow(m: seq<seq<char>>, elfAttackPower: nat, y: nat, us: seq<Unit>) returns (us': seq<Unit>)
      requires Walled(m) && (forall p :: UnitCell(m, p) ==> Interior(m, p)) && y < |m|
      requires Created(m, elfAttackPower, us) && forall u :: u in us ==> u.position.y < y
      ensures Created(m, elfAttackPower, us') && forall u :: u in us' ==> u.position.y <= y
      ensures forall u :: u in us ==> u in us'
      ensures forall p :: UnitCell(m, p) && p.y == y ==> exists u :: u in us' && u.position == p
    {
      us' := us;
      for x := 0 to |m[y]|
        invariant Created(m, elfAttackPower, us')
        invariant forall u :: u in us' ==> u.position.y < y || (u.position.y == y && u.position.x < x)
        invariant forall u :: u in us ==> u in us'
        invariant forall p :: UnitCell(m, p) && p.y == y && p.x < x ==> exists u :: u in us' && u.position == p
      {
        var kind := m[y][x];
        if kind == 'E' || kind == 'G' {
          assert UnitCell(m, Pos(x, y));
          var unit := new Unit(Pos(x, y), kind, if kind == 'E' then elfAttackPower else 3, 200);
          CreatedAppend(m, elfAttackPower, us', unit);
          us' := us' + [unit];
        }
      }
    }

    /** The map is walled, every unit agrees with it, and no two living
        units share a cell. */
    ghost predicate Valid()
      reads this, Repr
    {
      && Repr == (set u | u in units)
      && Walled(cave)
      && (forall u :: u in Repr ==> Standing(cave, u))
      && (forall u, v :: u in Repr && v in Repr && u != v && !u.dead && !v.dead ==> u.position != v.position)
    }

    /** The living units all belong to one side. */
    ghost predicate OneSide()
      reads this, Repr
    {
      forall u, v :: u in Repr && v in Repr && !u.dead && !v.dead ==> u.kind == v.kind
    }

    /** `all_elves_alive?`. */
    function AllElvesAlive(): bool
      reads this, Repr
      requires Repr == set u | u in units
    {
      forall i :: 0 <= i < |units| ==> units[i].kind == 'E' ==> !units[i].dead
    }

    /** `Combat#attack`: the target loses the attacker's power in hit
        points and, at none left, dies and leaves its cell open. */
    method Attack(attacker: Unit, target: Unit)
      requires Valid() && target in Repr && !target.dead
      modifies this, target
      ensures Valid() && rounds == old(rounds)
      ensures target.hitPoints == old(target.hitPoints) - attacker.attackPower
      ensures target.dead == (target.hitPoints <= 0) && target.position == old(target.position)
      ensures cave == if target.dead then Put(old(cave), target.position, '.') else old(cave)
    {
      target.hitPoints := target.hitPoints - attacker.attackPower;
      if target.hitPoints <= 0 {
        target.dead := true;
        PutCells(cave, target.position, '.');
        PutWalled(cave, target.position, '.');
        cave := Put(cave, target.position, '.');
      }
    }

    /** `move_unit`: the unit's old cell opens and the new one shows its
        kind. */
    method MoveUnit(unit: Unit, next: Pos)
      requires Valid() && unit in Repr && !unit.dead && OpenAt(cave, next)
      modifies this, unit
      ensures Valid() && rounds == old(rounds)
      ensures unit.position == next && unit.hitPoints == old(unit.hitPoints) && unit.dead == old(unit.dead)
      ensures forall u :: u in Repr && u != unit ==> u.position == old(u.position)
      ensures forall u :: u in Repr ==> u.hitPoints == old(u.hitPoints) && u.dead == old(u.dead)
      ensures cave == Put(Put(old(cave), old(unit.position), '.'), next, unit.kind)
    {
      var here := unit.position;
      PutCells(cave, here, '.');
      PutWalled(cave, here, '.');
      var cleared := Put(cave, here, '.');
      PutCells(cleared, next, unit.kind);
      PutWalled(cleared, next, unit.kind);
      cave := Put(cleared, next, unit.kind);
      unit.position := next;
    }


    /** `discover`: a breadth-first search from `start` that stops once
        the depth grows after a cell of `searchFor` has been seen, or when
        no cell is left to expand. */
    method Discover(start: Pos, searchFor: set<Pos>) returns (found: seq<(Pos, nat)>)
      requires Walled(cave) && Interior(cave, start)
      ensures BreadthFirst(cave, start, found)
      ensures Seen(found) * searchFor != {} || Closed(cave, found)
    {
      found := [(start, 0)];
      var seen := {start};
      ghost var parent: seq<nat> := [0];
      var i := 0;
      var done := false;
      while !done
        invariant Search(cave, start, found, parent) && i < |found|
        invariant seen == Seen(found)
        invariant Frontier(found, i)
        invariant Expanded(cave, found, if done then i + 1 else i)
        invariant done ==> i + 1 == |found| || seen * searchFor != {}
        decreases if done then 0 else 1, |OpenCells(cave) - seen|, |found| - i
      {
        found, seen, parent := Expand(start, found, seen, parent, i);
        if i + 1 == |found| {
          done := true;
        } else if found[i + 1].1 > found[i].1 && seen * searchFor != {} {
          done := true;
        } else {
          i := i + 1;
        }
      }
      SearchIsBreadthFirst(cave, start, found, parent);
    }

    /** One pass of `discover` over entry `i`: its open neighbours not
        seen yet are appended, one step deeper. */
    method Expand(start: Pos, found: seq<(Pos, nat)>, seen: set<Pos>, ghost parent: seq<nat>, i: nat)
      returns (found': seq<(Pos, nat)>, seen': set<Pos>, ghost parent': seq<nat>)
      requires Search(cave, start, found, parent) && i < |found| && seen == Seen(found)
      requires Frontier(found, i) && Expanded(cave, found, i)
      ensures Search(cave, start, found', parent') && seen' == Seen(found')
      ensures |found| <= |found'| && found'[..|found|] == found
      ensures Frontier(found', i) && Expanded(cave, found', i + 1)
      ensures |found'| == |found| ==> seen' == seen
      ensures |found'| > |found| ==> |OpenCells(cave) - seen'| < |OpenCells(cave) - seen|
    {
      var news := Unseen(AdjacentTo(cave, found[i].0), seen);
      found', seen' := Record(found, seen, news, found[i].1 + 1);
      parent' := parent + Copies(i, |news|);
      ExpandSearch(cave, start, found, parent, i, news, found', parent');
      ExpandCovers(cave, found, i, news, found');
      if news != [] {
        ExpandShrinks(cave, found, i, news, found');
      }
    }

    /** The loop of `discover` that appends the new cells. */
    method Record(found: seq<(Pos, nat)>, seen: set<Pos>, news: seq<Pos>, d: nat)
      returns (found': seq<(Pos, nat)>, seen': set<Pos>)
      ensures found' == found + Entries(news, d)
      ensures seen' == seen + set q | q in news
    {
      found', seen' := found, seen;
      for k := 0 to |news|
        invariant found' == found + Entries(news[..k], d)
        invariant seen' == seen + set q | q in news[..k]
      {
        assert news[..k + 1] == news[..k] + [news[k]];
        found' := found' + [(news[k], d)];
        seen' := seen' + {news[k]};
      }
      assert news[..|news|] == news;
    }
  
    /** `Unit#attack`: whether an enemy of `targets` is next to the unit;
        if one is, the one with the fewest hit points, first in reading
        order among equals, is attacked, and nothing else changes. */
    method UnitAttack(unit: Unit, targets: seq<Unit>) returns (inRange: bool)
      requires Valid() && unit in Repr
      requires forall t :: t in targets ==> t in Repr && !t.dead
      modifies this, Repr
      ensures Valid() && rounds == old(rounds)
      ensures inRange == (old(InRange(targets, unit.position)) != [])
      ensures !inRange ==> cave == old(cave)
      ensures forall u :: u in Repr ==> u.position == old(u.position)
      ensures forall u :: u in Repr && u !in targets ==> u.hitPoints == old(u.hitPoints) && u.dead == old(u.dead)
      ensures forall u :: u in Repr && (!inRange || u != old(ChooseTarget(InRange(targets, unit.position)))) ==>
        u.hitPoints == old(u.hitPoints) && u.dead == old(u.dead)
      ensures inRange ==> var t := old(ChooseTarget(InRange(targets, unit.position)));
        && t.hitPoints == old(t.hitPoints) - unit.attackPower
        && t.dead == (t.hitPoints <= 0)
        && cave == if t.dead then Put(old(cave), t.position, '.') else old(cave)
    {
      var adjacent := InRange(targets, unit.position);
      if adjacent == [] {
        return false;
      }
      var target := ChooseTarget(adjacent);
      Attack(unit, target);
      inRange := true;
    }

    /** `nearest_reachable_positions`: the search from the unit towards
        `attackPositions`, and its entries on those cells at the least
        depth. */
    method NearestReachable(unit: Unit, attackPositions: set<Pos>) returns (nearest: seq<(Pos, nat)>, ghost found: seq<(Pos, nat)>)
      requires Valid() && unit in Repr && !unit.dead
      ensures BreadthFirst(cave, unit.position, found)
      ensures Seen(found) * attackPositions != {} || Closed(cave, found)
      ensures nearest == Nearest(found, attackPositions)
    {
      var all := Discover(unit.position, attackPositions);
      nearest := Nearest(all, attackPositions);
      found := all;
    }

    /** `next_position`: the open neighbour of the unit nearest to
        `chosen`, first in reading order among equals, found by a search
        back from `chosen`; `None` where that search reaches no
        neighbour. */
    method NextPosition(unit: Unit, chosen: Pos) returns (next: Option<Pos>, ghost paths: seq<(Pos, nat)>)
      requires Valid() && unit in Repr && !unit.dead && OpenAt(cave, chosen)
      ensures BreadthFirst(cave, chosen, paths)
      ensures next.Some? <==> Nearest(paths, Steps(cave, unit.position)) != []
      ensures next.Some? ==> next.value == FirstPosition(Nearest(paths, Steps(cave, unit.position)))
      ensures next.Some? ==> Neighbours(unit.position, next.value) && OpenAt(cave, next.value)
    {
      var adjacent := AdjacentTo(cave, unit.position);
      var steps := set q | q in adjacent;
      var all := Discover(chosen, steps);
      paths := all;
      var nearest := Nearest(all, steps);
      if nearest == [] {
        return None, paths;
      }
      var first := FirstPosition(nearest);
      next := Some(first);
    }

    /** `move`: a step towards the nearest reachable attack position as
        `Moved` describes it, or no change when none is reachable. */
    method Move(unit: Unit, attackPositions: set<Pos>)
      returns (reachable: bool, ghost found: seq<(Pos, nat)>, ghost chosen: Pos, ghost back: seq<(Pos, nat)>)
      requires Valid() && unit in Repr && !unit.dead
      requires forall q :: q in attackPositions ==> OpenAt(cave, q)
      modifies this, unit
      ensures Valid() && rounds == old(rounds)
      ensures forall u :: u in Repr ==> u.hitPoints == old(u.hitPoints) && u.dead == old(u.dead)
      ensures forall u :: u in Repr && u != unit ==> u.position == old(u.position)
      ensures unit.position == old(unit.position) ==> cave == old(cave)
      ensures unit.position == old(unit.position)
        || (Neighbours(old(unit.position), unit.position) && OpenAt(old(cave), unit.position))
      ensures Moved(old(cave), old(unit.position), attackPositions, reachable, found, chosen, back, unit.position)
    {
      var nearest;
      nearest, found := NearestReachable(unit, attackPositions);
      if nearest == [] {
        forall q | q in Seen(found)
          ensures q !in attackPositions
        {
          var k :| 0 <= k < |found| && found[k].0 == q;
          assert found[k] in found;
        }
        assert Seen(found) * attackPositions == {};
        return false, found, unit.position, [];
      }
      var target := FirstPosition(nearest);
      chosen := target;
      var next;
      next, back := NextPosition(unit, target);
      if next.Some? {
        MoveUnit(unit, next.value);
      }
      reachable := true;
    }

    /** `tick`: a dead unit does nothing; with no enemy left the combat is
        done; otherwise the unit attacks if an enemy is next to it, and
        else first moves. */
    method Tick(unit: Unit) returns (done: bool)
      requires Valid() && unit in Repr
      modifies this, Repr
      ensures Valid() && rounds == old(rounds)
      ensures done <==> !old(unit.dead) && old(Enemies(units, unit.kind)) == []
      ensures done ==> OneSide()
      ensures old(unit.dead) || done ==> cave == old(cave)
      ensures forall u :: u in Repr && (old(unit.dead) || done || u.kind == unit.kind) ==>
        u.hitPoints == old(u.hitPoints) && u.dead == old(u.dead)
      ensures forall u :: u in Repr && old(u.dead) ==> u.dead
      ensures forall u :: u in Repr && u != unit ==> u.position == old(u.position)
      ensures unit.position == old(unit.position)
        || (Neighbours(old(unit.position), unit.position) && OpenAt(old(cave), unit.position))
      ensures old(InRange(Enemies(units, unit.kind), unit.position)) != [] ==> unit.position == old(unit.position)
    {
      if unit.dead {
        return false;
      }
      var targets := Enemies(units, unit.kind);
      if targets == [] {
        return true;
      }
      if InRange(targets, unit.position) != [] {
        var _ := UnitAttack(unit, targets);
      } else {
        var _, _, _, _ := MoveAndAttack(unit, targets);
      }
      done := false;
    }

    /** `tick` with no enemy in range: move towards the attack positions
        of `targets` as `Moved` describes, then attack unless none was
        reachable, in which case nothing changes. */
    method MoveAndAttack(unit: Unit, targets: seq<Unit>)
      returns (reachable: bool, ghost found: seq<(Pos, nat)>, ghost chosen: Pos, ghost back: seq<(Pos, nat)>)
      requires Valid() && unit in Repr && !unit.dead
      requires forall t :: t in targets ==> t in Repr && !t.dead
      modifies this, Repr
      ensures Valid() && rounds == old(rounds)
      ensures forall u :: u in Repr && u !in targets ==> u.hitPoints == old(u.hitPoints) && u.dead == old(u.dead)
      ensures forall u :: u in Repr && old(u.dead) ==> u.dead
      ensures forall u :: u in Repr && u != unit ==> u.position == old(u.position)
      ensures unit.position == old(unit.position)
        || (Neighbours(old(unit.position), unit.position) && OpenAt(old(cave), unit.position))
      ensures Moved(old(cave), old(unit.position), old(AttackPositions(cave, targets)), reachable, found, chosen, back, unit.position)
      ensures !reachable ==> cave == old(cave) && forall u :: u in Repr ==> u.hitPoints == old(u.hitPoints) && u.dead == old(u.dead)
    {
      var positions := AttackPositions(cave, targets);
      reachable, found, chosen, back := Move(unit, positions);
      if reachable {
        var _ := UnitAttack(unit, targets);
      }
    }

    /** The loop of `run` over the living units of one round, in reading
        order. */
    method Round() returns (done: bool)
      requires Valid()
      modifies this, Repr
      ensures Valid() && rounds == old(rounds)
      ensures done ==> OneSide()
      ensures forall u :: u in Repr && old(u.dead) ==> u.dead
    {
      var order := SortByReadingOrder(Living(units));
      for k := 0 to |order|
        invariant Valid() && rounds == old(rounds)
        invariant forall u :: u in Repr && old(u.dead) ==> u.dead
      {
        assert order[k] in multiset(order);
        done := Tick(order[k]);
        if done {
          return;
        }
      }
      done := false;
    }

    /** `run` for at most `fuel` rounds: `rounds` counts the rounds that
        ended without the combat being done. */
    method Run(fuel: nat) returns (finished: bool)
      requires Valid()
      modifies this, Repr
      ensures Valid()
      ensures finished ==> rounds < fuel && OneSide()
      ensures !finished ==> rounds == fuel
      ensures forall u :: u in Repr && old(u.dead) ==> u.dead
      ensures AllElvesAlive() ==> old(AllElvesAlive())
    {
      rounds := 0;
      while rounds < fuel
        invariant Valid() && rounds <= fuel
        invariant forall u :: u in Repr && old(u.dead) ==> u.dead
      {
        finished := Round();
        if finished {
          return;
        }
        rounds := rounds + 1;
      }
      finished := false;
    }
  }
}
