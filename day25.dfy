/** Points in four dimensions grouped into constellations: a point joins
    every constellation that has a member within Manhattan distance 3,
    merging them when there are several. */
module Constellations {
  import opened Wrappers

  /** `Point`: the four coordinates `coords[0..3]`. */
  datatype Point = Point(a: int, b: int, c: int, d: int)
  {
    /** `Point#distance`: the Manhattan distance over four coordinates. */
    function Distance(q: Point): (r: nat)
      ensures r == 0 <==> this == q
    {
      Abs(a - q.a) + Abs(b - q.b) + Abs(c - q.c) + Abs(d - q.d)
    }
  }

  function Abs(n: int): nat
  {
    if n < 0 then -n else n
  }

  lemma DistanceSymmetric(p: Point, q: Point)
    ensures p.Distance(q) == q.Distance(p)
  {
  }

  /** The distance of the closest of `ps` to `q`. */
  function MinDistance(ps: seq<Point>, q: Point): (r: nat)
    requires ps != []
    ensures forall x :: x in ps ==> r <= x.Distance(q)
    ensures exists x :: x in ps && r == x.Distance(q)
  {
    if |ps| == 1 then ps[0].Distance(q)
    else
      var init := ps[..|ps| - 1];
      var last := ps[|ps| - 1];
      assert ps == init + [last];
      var m := MinDistance(init, q);
      if last.Distance(q) < m then last.Distance(q) else m
  }

  /** The constellation `g` reaches `p`: it is not empty and its closest
      member lies within 3. */
  predicate Near(g: seq<Point>, p: Point)
  {
    g != [] && MinDistance(g, p) <= 3
  }

  lemma NearIff(g: seq<Point>, p: Point, x: Point)
    requires x in g
    ensures x.Distance(p) <= 3 ==> Near(g, p)
  {
  }

  // ---------------------------------------------------------------------
  // One point at a time, on values.

  /** The indices `j < n` of constellations near `p`, in list order
      (`select`). */
  function NearIndices(gs: seq<seq<Point>>, p: Point, n: nat): (r: seq<int>)
    requires n <= |gs|
    ensures forall k :: 0 <= k < |r| ==> 0 <= r[k] < n
  {
    if n == 0 then []
    else NearIndices(gs, p, n - 1) + (if Near(gs[n - 1], p) then [n - 1] else [])
  }

  /** Every index in `r` is that of a constellation near `p`. */
  predicate AllNear(gs: seq<seq<Point>>, p: Point, r: seq<int>)
  {
    forall k :: 0 <= k < |r| ==> 0 <= r[k] < |gs| && Near(gs[r[k]], p)
  }

  predicate Increasing(r: seq<int>)
  {
    forall k, l :: 0 <= k < l < |r| ==> r[k] < r[l]
  }

  /** `near` lists, in increasing order, exactly the constellations near
      `p`. */
  predicate NearList(gs: seq<seq<Point>>, p: Point, near: seq<int>)
  {
    && AllNear(gs, p, near)
    && (forall j :: 0 <= j < |gs| && Near(gs[j], p) ==> j in near)
    && Increasing(near)
  }

  lemma {:induction false} NearIndicesNear(gs: seq<seq<Point>>, p: Point, n: nat)
    requires n <= |gs|
    ensures AllNear(gs, p, NearIndices(gs, p, n))
  {
    if n > 0 {
      NearIndicesNear(gs, p, n - 1);
      var r' := NearIndices(gs, p, n - 1);
      var r := NearIndices(gs, p, n);
      assert r == r' + (if Near(gs[n - 1], p) then [n - 1] else []);
      forall k | 0 <= k < |r|
        ensures 0 <= r[k] < |gs| && Near(gs[r[k]], p)
      {
        if k < |r'| {
          assert r[k] == r'[k];
        }
      }
    }
  }

  lemma {:induction false} NearIndicesComplete(gs: seq<seq<Point>>, p: Point, n: nat)
    requires n <= |gs|
    ensures forall j :: 0 <= j < n && Near(gs[j], p) ==> j in NearIndices(gs, p, n)
  {
    if n > 0 {
      NearIndicesComplete(gs, p, n - 1);
      var r' := NearIndices(gs, p, n - 1);
      var r := NearIndices(gs, p, n);
      assert forall j :: j in r' ==> j in r;
    }
  }

  lemma {:induction false} NearIndicesIncreasing(gs: seq<seq<Point>>, p: Point, n: nat)
    requires n <= |gs|
    ensures Increasing(NearIndices(gs, p, n))
  {
    if n > 0 {
      NearIndicesIncreasing(gs, p, n - 1);
      var r' := NearIndices(gs, p, n - 1);
      var r := NearIndices(gs, p, n);
      assert r == r' + (if Near(gs[n - 1], p) then [n - 1] else []);
      forall k, l | 0 <= k < l < |r|
        ensures r[k] < r[l]
      {
        assert r[k] == r'[k] < n - 1;
        if l < |r'| {
          assert r[l] == r'[l];
        }
      }
    }
  }

  /** `select` keeps exactly the near constellations, in list order. */
  lemma NearIndicesList(gs: seq<seq<Point>>, p: Point)
    ensures NearList(gs, p, NearIndices(gs, p, |gs|))
  {
    NearIndicesNear(gs, p, |gs|);
    NearIndicesComplete(gs, p, |gs|);
    NearIndicesIncreasing(gs, p, |gs|);
  }

  /** The points of the constellations at `js`, in that order. */
  function ConcatAt(gs: seq<seq<Point>>, js: seq<int>): seq<Point>
    requires forall k :: 0 <= k < |js| ==> 0 <= js[k] < |gs|
  {
    if js == [] then [] else ConcatAt(gs, js[..|js| - 1]) + gs[js[|js| - 1]]
  }

  /** The constellations `i < n` whose index is not in `js`. */
  function KeepOut<T>(gs: seq<T>, js: seq<int>, n: nat): seq<T>
    requires n <= |gs|
  {
    if n == 0 then [] else KeepOut(gs, js, n - 1) + (if n - 1 in js then [] else [gs[n - 1]])
  }

  /** The first near constellation after it took the points of the other
      near ones, in list order, then the point. */
  function Merged(gs: seq<seq<Point>>, p: Point, near: seq<int>): seq<Point>
    requires near != [] && forall k :: 0 <= k < |near| ==> 0 <= near[k] < |gs|
  {
    gs[near[0]] + ConcatAt(gs, near[1..]) + [p]
  }

  /** The constellations after the merge: the first near one replaced by
      `Merged`, the other near ones deleted. */
  function Merge(gs: seq<seq<Point>>, p: Point, near: seq<int>): seq<seq<Point>>
    requires near != [] && forall k :: 0 <= k < |near| ==> 0 <= near[k] < |gs|
  {
    KeepOut(gs[near[0] := Merged(gs, p, near)], near[1..], |gs|)
  }

  /** One step of `create_constellations`: with no constellation near, the
      point starts a new one; otherwise the near ones merge into the
      first. */
  function Add(gs: seq<seq<Point>>, p: Point): seq<seq<Point>>
  {
    var near := NearIndices(gs, p, |gs|);
    if near == [] then gs + [[p]] else Merge(gs, p, near)
  }

  /** `create_constellations`: the points added in order. */
  function Build(points: seq<Point>): seq<seq<Point>>
  {
    if points == [] then [] else Add(Build(points[..|points| - 1]), points[|points| - 1])
  }

  // ---------------------------------------------------------------------
  // What a step keeps.

  predicate NoEmpty(gs: seq<seq<Point>>)
  {
    forall g :: g in gs ==> g != []
  }

  /** Points within 3 of each other lie in the same constellation: the one
      at the same index, so two constellations with equal points are two. */
  predicate Separated(gs: seq<seq<Point>>)
  {
    forall i, j, x: Point, y: Point :: 0 <= i < |gs| && 0 <= j < |gs| && x in gs[i] && y in gs[j] && x.Distance(y) <= 3 ==> i == j
  }

  /** The number of points over all constellations. */
  function Total(gs: seq<seq<Point>>): nat
  {
    if gs == [] then 0 else Total(gs[..|gs| - 1]) + |gs[|gs| - 1]|
  }

  lemma {:induction false} TotalUpdate(gs: seq<seq<Point>>, i: nat, g: seq<Point>)
    requires i < |gs|
    ensures Total(gs[i := g]) == Total(gs) - |gs[i]| + |g|
  {
    var n := |gs| - 1;
    if i < n {
      TotalUpdate(gs[..n], i, g);
      assert gs[i := g][..n] == gs[..n][i := g];
    } else {
      assert gs[i := g][..n] == gs[..n];
    }
  }

  lemma {:induction false} KeepOutMembers<T>(gs: seq<T>, js: seq<int>, n: nat, g: T)
    requires n <= |gs|
    ensures g in KeepOut(gs, js, n) <==> exists i :: 0 <= i < n && i !in js && gs[i] == g
  {
    if n > 0 {
      KeepOutMembers(gs, js, n - 1, g);
    }
  }

  lemma {:induction false} ConcatAtMembers(gs: seq<seq<Point>>, js: seq<int>, x: Point)
    requires forall k :: 0 <= k < |js| ==> 0 <= js[k] < |gs|
    ensures x in ConcatAt(gs, js) <==> exists k :: 0 <= k < |js| && x in gs[js[k]]
  {
    if js != [] {
      var m := |js| - 1;
      var front := js[..m];
      assert ConcatAt(gs, js) == ConcatAt(gs, front) + gs[js[m]];
      ConcatAtMembers(gs, front, x);
      if x in ConcatAt(gs, js) {
        if x in ConcatAt(gs, front) {
          var k :| 0 <= k < m && x in gs[front[k]];
          assert front[k] == js[k];
        }
      }
      if k :| 0 <= k < |js| && x in gs[js[k]] {
        if k < m {
          assert front[k] == js[k];
        }
      }
    }
  }

  /** Updating a constellation whose index is not in `js` leaves their
      points alone. */
  lemma {:induction false} ConcatAtUpdate(gs: seq<seq<Point>>, js: seq<int>, f: nat, g: seq<Point>)
    requires f < |gs| && f !in js
    requires forall k :: 0 <= k < |js| ==> 0 <= js[k] < |gs|
    ensures ConcatAt(gs[f := g], js) == ConcatAt(gs, js)
  {
    if js != [] {
      var m := |js| - 1;
      assert js[m] in js;
      assert forall k :: 0 <= k < m ==> js[..m][k] == js[k];
      ConcatAtUpdate(gs, js[..m], f, g);
    }
  }

  /** `js` lists increasing indices of `gs`, of which the first `m` lie
      below `n` and the rest at or above it. */
  predicate SplitIndices(gs: seq<seq<Point>>, js: seq<int>, n: nat, m: nat)
  {
    && n <= |gs| && m <= |js|
    && (forall k :: 0 <= k < |js| ==> 0 <= js[k] < |gs|)
    && Increasing(js)
    && (forall k :: 0 <= k < m ==> js[k] < n)
    && (forall k :: m <= k < |js| ==> n <= js[k])
  }

  /** At most `n` increasing indices lie below `n`. */
  lemma SplitBottom(gs: seq<seq<Point>>, js: seq<int>, n: nat, m: nat)
    requires SplitIndices(gs, js, n, m)
    ensures m <= n
  {
    if m > 0 {
      AtLeastIndex(js, m - 1);
    }
  }

  /** The step of `KeepOutTotal` where index `n - 1` is dropped. */
  lemma KeepOutHit(gs: seq<seq<Point>>, js: seq<int>, n: nat, m: nat)
    requires SplitIndices(gs, js, n, m) && n > 0 && m > 0 && js[m - 1] == n - 1
    ensures SplitIndices(gs, js, n - 1, m - 1)
    ensures KeepOut(gs, js, n) == KeepOut(gs, js, n - 1)
    ensures ConcatAt(gs, js[..m]) == ConcatAt(gs, js[..m - 1]) + gs[n - 1]
  {
    assert n - 1 in js;
    assert js[..m][..m - 1] == js[..m - 1];
  }

  /** The step of `KeepOutTotal` where index `n - 1` is kept. */
  lemma KeepOutMiss(gs: seq<seq<Point>>, js: seq<int>, n: nat, m: nat)
    requires SplitIndices(gs, js, n, m) && n > 0 && !(m > 0 && js[m - 1] == n - 1)
    ensures SplitIndices(gs, js, n - 1, m)
    ensures KeepOut(gs, js, n) == KeepOut(gs, js, n - 1) + [gs[n - 1]]
  {
    assert n - 1 !in js by {
      forall k | 0 <= k < |js|
        ensures js[k] != n - 1
      {
        if k < m - 1 {
          assert js[k] < js[m - 1];
        }
      }
    }
  }

  /** The points kept and the points of the dropped constellations add up
      to all the points. */
  lemma {:induction false} KeepOutTotal(gs: seq<seq<Point>>, js: seq<int>, n: nat, m: nat)
    requires SplitIndices(gs, js, n, m)
    ensures Total(KeepOut(gs, js, n)) + |ConcatAt(gs, js[..m])| == Total(gs[..n])
  {
    if n == 0 {
      SplitBottom(gs, js, n, m);
      assert js[..m] == [];
    } else {
      TotalPrefix(gs, n);
      if m > 0 && js[m - 1] == n - 1 {
        KeepOutHit(gs, js, n, m);
        KeepOutTotal(gs, js, n - 1, m - 1);
      } else {
        KeepOutMiss(gs, js, n, m);
        KeepOutTotal(gs, js, n - 1, m);
        TotalSnoc(KeepOut(gs, js, n - 1), gs[n - 1]);
      }
    }
  }

  lemma TotalPrefix(gs: seq<seq<Point>>, n: nat)
    requires 0 < n <= |gs|
    ensures Total(gs[..n]) == Total(gs[..n - 1]) + |gs[n - 1]|
  {
    assert gs[..n][..n - 1] == gs[..n - 1];
  }

  lemma TotalSnoc(gs: seq<seq<Point>>, g: seq<Point>)
    ensures Total(gs + [g]) == Total(gs) + |g|
  {
    assert (gs + [g])[..|gs|] == gs;
  }

  /** Increasing indices are at least their position. */
  lemma {:induction false} AtLeastIndex(js: seq<int>, k: nat)
    requires k < |js|
    requires forall i :: 0 <= i < |js| ==> 0 <= js[i]
    requires forall i, l :: 0 <= i < l < |js| ==> js[i] < js[l]
    ensures k <= js[k]
  {
    if k > 0 {
      AtLeastIndex(js, k - 1);
    }
  }

  /** Merging adds exactly the new point. */
  lemma MergeTotal(gs: seq<seq<Point>>, p: Point, near: seq<int>)
    requires Increasing(near) && near != []
    requires forall k :: 0 <= k < |near| ==> 0 <= near[k] < |gs|
    ensures Total(Merge(gs, p, near)) == Total(gs) + 1
  {
    var f := near[0];
    var js := near[1..];
    var merged := Merged(gs, p, near);
    var gs' := gs[f := merged];
    IncreasingTail(gs', near);
    assert Total(KeepOut(gs', js, |gs|)) + |ConcatAt(gs', js)| == Total(gs') by {
      KeepOutTotal(gs', js, |gs|, |js|);
      assert js[..|js|] == js;
      assert gs'[..|gs|] == gs';
    }
    assert ConcatAt(gs', js) == ConcatAt(gs, js) by {
      ConcatAtUpdate(gs, js, f, merged);
    }
    TotalUpdate(gs, f, merged);
  }

  /** The tail of an increasing list of indices of `gs` is split at
      `|gs|`, and does not hold the head. */
  lemma IncreasingTail(gs: seq<seq<Point>>, r: seq<int>)
    requires r != [] && Increasing(r)
    requires forall k :: 0 <= k < |r| ==> 0 <= r[k] < |gs|
    ensures SplitIndices(gs, r[1..], |gs|, |r| - 1) && r[0] !in r[1..]
  {
    assert forall k :: 0 <= k < |r| - 1 ==> r[1..][k] == r[k + 1];
  }

  /** A step adds exactly one point. */
  lemma AddTotal(gs: seq<seq<Point>>, p: Point)
    ensures Total(Add(gs, p)) == Total(gs) + 1
  {
    var near := NearIndices(gs, p, |gs|);
    if near == [] {
      TotalSnoc(gs, [p]);
    } else {
      NearIndicesIncreasing(gs, p, |gs|);
      MergeTotal(gs, p, near);
    }
  }

  /** A member of a merge is the merged constellation or an old one that
      does not reach the point. */
  lemma KeptFrom(gs: seq<seq<Point>>, p: Point, near: seq<int>, g: seq<Point>)
    requires NearList(gs, p, near) && near != []
    requires g in Merge(gs, p, near)
    ensures g == Merged(gs, p, near) || (g in gs && !Near(g, p))
  {
    var f := near[0];
    var js := near[1..];
    var gs' := gs[f := Merged(gs, p, near)];
    KeepOutMembers(gs', js, |gs|, g);
    var i :| 0 <= i < |gs| && i !in js && gs'[i] == g;
    if i != f {
      assert gs[i] in gs;
      assert forall k :: 0 <= k < |js| ==> js[k] == near[k + 1];
    }
  }

  /** A step creates no empty constellation. */
  lemma AddNoEmpty(gs: seq<seq<Point>>, p: Point)
    requires NoEmpty(gs)
    ensures NoEmpty(Add(gs, p))
  {
    var near := NearIndices(gs, p, |gs|);
    if near != [] {
      NearIndicesList(gs, p);
      forall g | g in Merge(gs, p, near)
        ensures g != []
      {
        KeptFrom(gs, p, near, g);
      }
    }
  }

  lemma {:induction false} KeepOutHas<T>(gs: seq<T>, js: seq<int>, n: nat, i: nat)
    requires i < n <= |gs| && i !in js
    ensures gs[i] in KeepOut(gs, js, n)
  {
    if i < n - 1 {
      KeepOutHas(gs, js, n - 1, i);
    }
  }

  /** Every point of a merge's input stays in some constellation, and the
      new point is placed. */
  lemma MergeCovers(gs: seq<seq<Point>>, p: Point, near: seq<int>, x: Point)
    requires NearList(gs, p, near) && near != []
    requires x == p || exists g :: g in gs && x in g
    ensures exists h :: h in Merge(gs, p, near) && x in h
  {
    var f := near[0];
    var js := near[1..];
    var gs' := gs[f := Merged(gs, p, near)];
    assert f !in js by {
      assert forall k :: 0 <= k < |js| ==> js[k] == near[k + 1];
    }
    KeepOutHas(gs', js, |gs|, f);
    var i := f;
    if x != p {
      var g :| g in gs && x in g;
      i :| 0 <= i < |gs| && gs[i] == g;
      if i in js {
        var k :| 0 <= k < |js| && js[k] == i;
        ConcatAtMembers(gs, js, x);
        i := f;
      } else if i != f {
        KeepOutHas(gs', js, |gs|, i);
      }
    }
    assert gs'[i] in Merge(gs, p, near) && x in gs'[i];
  }

  /** Every point already placed stays in some constellation, and the new
      point is placed. */
  lemma AddCovers(gs: seq<seq<Point>>, p: Point, x: Point)
    requires x == p || exists g :: g in gs && x in g
    ensures exists h :: h in Add(gs, p) && x in h
  {
    var near := NearIndices(gs, p, |gs|);
    if near == [] {
      if x == p {
        assert [p] in Add(gs, p) && x in [p];
      } else {
        var g :| g in gs && x in g;
        assert g in Add(gs, p);
      }
    } else {
      NearIndicesList(gs, p);
      MergeCovers(gs, p, near, x);
    }
  }

  /** In the merged constellation, each point is the new point or belongs
      to a constellation near it. */
  lemma MergedFrom(gs: seq<seq<Point>>, p: Point, near: seq<int>, x: Point)
    requires NearList(gs, p, near) && near != []
    requires x in Merged(gs, p, near)
    ensures x == p || exists j :: 0 <= j < |gs| && Near(gs[j], p) && x in gs[j]
  {
    var js := near[1..];
    if x != p && x !in gs[near[0]] {
      ConcatAtMembers(gs, js, x);
      var k :| 0 <= k < |js| && x in gs[js[k]];
      assert js[k] == near[k + 1];
    }
  }

  /** The indices `i < n` not in `js`, in increasing order: where each
      constellation kept by `KeepOut` came from. */
  function Kept(js: seq<int>, n: nat): seq<int>
  {
    if n == 0 then [] else Kept(js, n - 1) + (if n - 1 in js then [] else [n - 1])
  }

  /** `KeepOut` keeps the constellations at `Kept`, in their order. */
  lemma {:induction false} KeepOutKept<T>(gs: seq<T>, js: seq<int>, n: nat)
    requires n <= |gs|
    ensures |KeepOut(gs, js, n)| == |Kept(js, n)| && Increasing(Kept(js, n))
    ensures forall a :: 0 <= a < |Kept(js, n)| ==>
      0 <= Kept(js, n)[a] < n && Kept(js, n)[a] !in js && KeepOut(gs, js, n)[a] == gs[Kept(js, n)[a]]
  {
    if n > 0 {
      KeepOutKept(gs, js, n - 1);
      var r' := Kept(js, n - 1);
      var r := Kept(js, n);
      assert r == r' + (if n - 1 in js then [] else [n - 1]);
      forall a | 0 <= a < |r|
        ensures 0 <= r[a] < n && r[a] !in js && KeepOut(gs, js, n)[a] == gs[r[a]]
      {
        if a < |r'| {
          assert r[a] == r'[a];
        }
      }
    }
  }

  /** A constellation not near the new point is apart from the merged
      one. */
  lemma MergedApart(gs: seq<seq<Point>>, p: Point, near: seq<int>, j: int, x: Point, y: Point)
    requires Separated(gs) && NearList(gs, p, near) && near != []
    requires 0 <= j < |gs| && j !in near && y in gs[j]
    requires x in Merged(gs, p, near)
    ensures x.Distance(y) > 3
  {
    MergedFrom(gs, p, near, x);
    if x.Distance(y) <= 3 && x == p {
      DistanceSymmetric(x, y);
      NearIff(gs[j], p, y);
    }
  }

  /** Two points within 3 of each other after a merge lie in the
      constellation at one index. */
  lemma MergePair(gs: seq<seq<Point>>, p: Point, near: seq<int>, a: int, b: int, x: Point, y: Point)
    requires Separated(gs) && NearList(gs, p, near) && near != []
    requires 0 <= a < |Merge(gs, p, near)| && 0 <= b < |Merge(gs, p, near)|
    requires x in Merge(gs, p, near)[a] && y in Merge(gs, p, near)[b] && x.Distance(y) <= 3
    ensures a == b
  {
    var f := near[0];
    var js := near[1..];
    var gs' := gs[f := Merged(gs, p, near)];
    assert near == [f] + js;
    KeepOutKept(gs', js, |gs|);
    var kept := Kept(js, |gs|);
    var i, j := kept[a], kept[b];
    assert x in gs'[i] && y in gs'[j];
    if i == f && j != f {
      MergedApart(gs, p, near, j, x, y);
    } else if i != f && j == f {
      DistanceSymmetric(x, y);
      MergedApart(gs, p, near, i, y, x);
    } else if i != f && j != f {
      assert x in gs[i] && y in gs[j];
    }
    assert i == j;
  }

  /** Two points within 3 of each other after a new constellation is
      started lie in the constellation at one index. */
  lemma AppendPair(gs: seq<seq<Point>>, p: Point, a: int, b: int, x: Point, y: Point)
    requires Separated(gs) && forall j :: 0 <= j < |gs| ==> !Near(gs[j], p)
    requires 0 <= a <= |gs| && 0 <= b <= |gs|
    requires x in (gs + [[p]])[a] && y in (gs + [[p]])[b] && x.Distance(y) <= 3
    ensures a == b
  {
    if a == |gs| && b < |gs| {
      NearIff(gs[b], p, y);
      DistanceSymmetric(x, y);
    } else if b == |gs| && a < |gs| {
      NearIff(gs[a], p, x);
    } else if a < |gs| && b < |gs| {
      assert x in gs[a] && y in gs[b];
    }
  }

  /** A step keeps points within 3 of each other together. */
  lemma AddSeparated(gs: seq<seq<Point>>, p: Point)
    requires Separated(gs)
    ensures Separated(Add(gs, p))
  {
    var near := NearIndices(gs, p, |gs|);
    var r := Add(gs, p);
    NearIndicesList(gs, p);
    forall a: int, b: int, x: Point, y: Point | 0 <= a < |r| && 0 <= b < |r| && x in r[a] && y in r[b] && x.Distance(y) <= 3
      ensures a == b
    {
      if near == [] {
        AppendPair(gs, p, a, b, x, y);
      } else {
        MergePair(gs, p, near, a, b, x, y);
      }
    }
  }

  /** `create_constellations` leaves no constellation empty and keeps
      points within 3 of each other in the same constellation. */
  lemma {:induction false} BuildSeparated(points: seq<Point>)
    ensures NoEmpty(Build(points)) && Separated(Build(points))
  {
    if points != [] {
      var init := points[..|points| - 1];
      BuildSeparated(init);
      AddNoEmpty(Build(init), points[|points| - 1]);
      AddSeparated(Build(init), points[|points| - 1]);
    }
  }

  /** `create_constellations` places as many points as it is given. */
  lemma {:induction false} BuildTotal(points: seq<Point>)
    ensures Total(Build(points)) == |points|
  {
    if points != [] {
      var init := points[..|points| - 1];
      BuildTotal(init);
      AddTotal(Build(init), points[|points| - 1]);
    }
  }

  /** `create_constellations` places every point it is given. */
  lemma {:induction false} BuildCovers(points: seq<Point>, x: Point)
    requires x in points
    ensures exists h :: h in Build(points) && x in h
  {
    var init := points[..|points| - 1];
    var p := points[|points| - 1];
    if x != p {
      assert x in init by {
        assert points == init + [p];
      }
      BuildCovers(init, x);
    }
    AddCovers(Build(init), p, x);
  }

  /** With exactly one constellation near, the point is appended to it. */
  lemma AddOne(gs: seq<seq<Point>>, p: Point, f: nat)
    requires f < |gs| && Near(gs[f], p)
    requires forall j :: 0 <= j < |gs| && j != f ==> !Near(gs[j], p)
    ensures Add(gs, p) == gs[f := gs[f] + [p]]
  {
    var near := NearIndices(gs, p, |gs|);
    NearIndicesList(gs, p);
    assert near == [f] by {
      assert forall k :: 0 <= k < |near| ==> near[k] == f;
      FirstTwo(near);
      assert f in near;
    }
    MergeOne(gs, p, f);
  }

  lemma MergeOne(gs: seq<seq<Point>>, p: Point, f: nat)
    requires f < |gs|
    ensures Merge(gs, p, [f]) == gs[f := gs[f] + [p]]
  {
    assert [f][1..] == [] && ConcatAt(gs, []) == [];
    assert Merged(gs, p, [f]) == gs[f] + [p];
    var gs' := gs[f := gs[f] + [p]];
    KeepOutNone(gs', |gs|);
    assert gs'[..|gs|] == gs';
  }

  lemma FirstTwo(s: seq<int>)
    requires forall k, l :: 0 <= k < l < |s| ==> s[k] < s[l]
    ensures |s| > 1 ==> s[0] < s[1]
  {
  }

  lemma {:induction false} KeepOutNone<T>(gs: seq<T>, n: nat)
    requires n <= |gs|
    ensures KeepOut(gs, [], n) == gs[..n]
  {
    if n > 0 {
      KeepOutNone(gs, n - 1);
      assert gs[..n] == gs[..n - 1] + [gs[n - 1]];
    }
  }

  // ---------------------------------------------------------------------
  // The objects.

  /** `Constellation`: a group of points that grows in place. */
  class Constellation {
    var points: seq<Point>

    constructor(points: seq<Point>)
      ensures this.points == points
    {
      this.points := points;
    }

    /** `join`: takes the points of `other` after its own. */
    method Join(other: Constellation)
      modifies this
      ensures points == old(points) + old(other.points)
    {
      points := points + other.points;
    }

    /** `points << point`. */
    method Push(point: Point)
      modifies this
      ensures points == old(points) + [point]
    {
      points := points + [point];
    }

    /** `distance`: the distance from `point` to the closest member. */
    function Distance(point: Point): (r: nat)
      reads this
      requires points != []
      ensures forall x :: x in points ==> r <= x.Distance(point)
      ensures exists x :: x in points && r == x.Distance(point)
    {
      MinDistance(points, point)
    }
  }

  /** The points of each constellation, in list order. */
  function Groups(cs: seq<Constellation>): (r: seq<seq<Point>>)
    reads cs
    ensures |r| == |cs|
  {
    if cs == [] then [] else Groups(cs[..|cs| - 1]) + [cs[|cs| - 1].points]
  }

  lemma {:induction false} GroupsAt(cs: seq<Constellation>)
    ensures |Groups(cs)| == |cs|
    ensures forall i :: 0 <= i < |cs| ==> Groups(cs)[i] == cs[i].points
  {
    if cs != [] {
      GroupsAt(cs[..|cs| - 1]);
    }
  }

  /** `close` holds the objects whose points are near `point`, in order. */
  ghost predicate Selected(cs: seq<Constellation>, point: Point, close: seq<Constellation>)
    reads cs
  {
    var near := NearIndices(Groups(cs), point, |cs|);
    |close| == |near| && forall k :: 0 <= k < |near| ==> close[k] == cs[near[k]]
  }

  /** The `select` of `create_constellations`: the constellations within 3
      of `point`, in list order. */
  method SelectClose(cs: seq<Constellation>, point: Point) returns (close: seq<Constellation>)
    requires NoEmpty(Groups(cs))
    ensures Selected(cs, point, close)
  {
    ghost var gs := Groups(cs);
    close := [];
    for i := 0 to |cs|
      invariant |gs| == |cs|
      invariant var near := NearIndices(gs, point, i);
        |close| == |near| && forall k :: 0 <= k < |near| ==> close[k] == cs[near[k]]
    {
      assert NearIndices(gs, point, i + 1)
          == NearIndices(gs, point, i) + (if Near(gs[i], point) then [i] else []);
      assert cs[i].points == gs[i] != [] by {
        GroupsAt(cs);
        assert gs[i] in gs;
      }
      if cs[i].Distance(point) <= 3 {
        close := close + [cs[i]];
      }
    }
  }

  /** `Array#delete` on a list of objects, which compares them by
      identity: every occurrence of `c` is removed. */
  function DeleteObject(cs: seq<Constellation>, c: Constellation): seq<Constellation>
  {
    if cs == [] then []
    else DeleteObject(cs[..|cs| - 1], c) + (if cs[|cs| - 1] == c then [] else [cs[|cs| - 1]])
  }

  /** The points of the objects kept by `KeepOut` are the kept points. */
  lemma {:induction false} GroupsKeepOut(cs: seq<Constellation>, js: seq<int>, n: nat, gs: seq<seq<Point>>)
    requires n <= |cs| == |gs|
    requires forall i :: 0 <= i < |cs| ==> cs[i].points == gs[i]
    ensures Groups(KeepOut(cs, js, n)) == KeepOut(gs, js, n)
  {
    if n > 0 {
      GroupsKeepOut(cs, js, n - 1, gs);
      var kept := KeepOut(cs, js, n - 1);
      if n - 1 !in js {
        assert (kept + [cs[n - 1]])[..|kept|] == kept;
        assert Groups(kept + [cs[n - 1]]) == Groups(kept) + [cs[n - 1].points];
        assert KeepOut(cs, js, n) == kept + [cs[n - 1]];
      } else {
        assert KeepOut(cs, js, n) == kept;
      }
    }
  }

  /** Deleting the object at index `j` from those kept is keeping one
      index fewer. */
  lemma {:induction false} DeleteKeepOut(cs: seq<Constellation>, js: seq<int>, j: nat, n: nat)
    requires j < |cs| && n <= |cs|
    requires forall i :: 0 <= i < |cs| && i != j ==> cs[i] != cs[j]
    ensures DeleteObject(KeepOut(cs, js, n), cs[j]) == KeepOut(cs, js + [j], n)
  {
    if n > 0 {
      DeleteKeepOut(cs, js, j, n - 1);
      var kept := KeepOut(cs, js, n - 1);
      var kept' := KeepOut(cs, js + [j], n - 1);
      assert (n - 1 in js + [j]) <==> (n - 1 in js || n - 1 == j);
      if n - 1 in js {
        assert KeepOut(cs, js, n) == kept;
        assert KeepOut(cs, js + [j], n) == kept';
        assert DeleteObject(KeepOut(cs, js, n), cs[j]) == KeepOut(cs, js + [j], n);
      } else {
        assert KeepOut(cs, js, n) == kept + [cs[n - 1]];
        assert (kept + [cs[n - 1]])[..|kept|] == kept;
        if n - 1 == j {
          assert KeepOut(cs, js + [j], n) == kept';
          assert DeleteObject(KeepOut(cs, js, n), cs[j]) == KeepOut(cs, js + [j], n);
        } else {
          assert cs[n - 1] != cs[j];
          assert KeepOut(cs, js + [j], n) == kept' + [cs[n - 1]];
          assert DeleteObject(KeepOut(cs, js, n), cs[j]) == KeepOut(cs, js + [j], n);
        }
      }
    }
  }

  lemma {:induction false} KeepOutDistinct<T>(s: seq<T>, js: seq<int>, n: nat)
    requires Distinct(s) && n <= |s|
    ensures Distinct(KeepOut(s, js, n))
  {
    if n > 0 {
      KeepOutDistinct(s, js, n - 1);
      if n - 1 !in js {
        var kept := KeepOut(s, js, n - 1);
        KeepOutMembers(s, js, n - 1, s[n - 1]);
        assert s[n - 1] !in kept;
      }
    }
  }

  lemma SliceSnoc(s: seq<int>, a: nat, b: nat)
    requires a <= b < |s|
    ensures s[a..b] + [s[b]] == s[a..b + 1]
    ensures s[a..b + 1][..b - a] == s[a..b] && s[a..b + 1][b - a] == s[b]
  {
  }

  /** The `each` of the merge branch: every other close constellation
      is deleted from the list and joined into the first. */
  method JoinOthers(cs: seq<Constellation>, close: seq<Constellation>,
                    ghost near: seq<int>, ghost gs: seq<seq<Point>>)
    returns (kept: seq<Constellation>)
    requires Distinct(cs) && Increasing(near) && near != []
    requires |gs| == |cs| && forall i :: 0 <= i < |cs| ==> cs[i].points == gs[i]
    requires forall k :: 0 <= k < |near| ==> 0 <= near[k] < |cs|
    requires |close| == |near| && forall k :: 0 <= k < |near| ==> close[k] == cs[near[k]]
    modifies close[0]
    ensures kept == KeepOut(cs, near[1..], |cs|)
    ensures close[0].points == gs[near[0]] + ConcatAt(gs, near[1..])
  {
    var target := close[0];
    kept := cs;
    assert KeepOut(cs, near[1..1], |cs|) == cs by {
      assert near[1..1] == [];
      KeepOutNone(cs, |cs|);
      assert cs[..|cs|] == cs;
    }
    for k := 1 to |close|
      invariant kept == KeepOut(cs, near[1..k], |cs|)
      invariant target.points == gs[near[0]] + ConcatAt(gs, near[1..k])
    {
      var c := close[k];
      assert c != target && c.points == gs[near[k]] by {
        assert near[0] < near[k];
        DistinctAt(cs, near[k]);
      }
      assert DeleteObject(kept, c) == KeepOut(cs, near[1..k + 1], |cs|) by {
        SliceSnoc(near, 1, k);
        DistinctAt(cs, near[k]);
        DeleteKeepOut(cs, near[1..k], near[k], |cs|);
      }
      kept := DeleteObject(kept, c);
      target.Join(c);
      assert target.points == gs[near[0]] + ConcatAt(gs, near[1..k + 1]) by {
        SliceSnoc(near, 1, k);
      }
    }
    assert near[1..|close|] == near[1..];
  }

  /** The merge branch of `create_constellations`: the other close
      constellations are deleted and joined into the first, in list order,
      and the point is appended to it. */
  method MergeInto(cs: seq<Constellation>, close: seq<Constellation>, point: Point,
                   ghost near: seq<int>, ghost gs: seq<seq<Point>>)
    returns (kept: seq<Constellation>)
    requires Distinct(cs) && Increasing(near) && near != []
    requires |gs| == |cs| && forall i :: 0 <= i < |cs| ==> cs[i].points == gs[i]
    requires forall k :: 0 <= k < |near| ==> 0 <= near[k] < |cs|
    requires |close| == |near| && forall k :: 0 <= k < |near| ==> close[k] == cs[near[k]]
    modifies close[0]
    ensures kept == KeepOut(cs, near[1..], |cs|)
    ensures Groups(kept) == Merge(gs, point, near)
  {
    kept := JoinOthers(cs, close, near, gs);
    close[0].Push(point);
    ghost var merged := gs[near[0] := Merged(gs, point, near)];
    assert forall i :: 0 <= i < |cs| ==> cs[i].points == merged[i] by {
      DistinctAt(cs, near[0]);
    }
    GroupsKeepOut(cs, near[1..], |cs|, merged);
  }

  /** The branch of `create_constellations` with nothing close: a new
      constellation holding only the point is appended. */
  method PlaceNew(cs: seq<Constellation>, point: Point) returns (cs': seq<Constellation>)
    requires Distinct(cs) && NearIndices(Groups(cs), point, |cs|) == []
    ensures Distinct(cs')
    ensures forall j :: 0 <= j < |cs'| ==> cs'[j] in cs || fresh(cs'[j])
    ensures Groups(cs') == Add(old(Groups(cs)), point)
  {
    ghost var gs := Groups(cs);
    GroupsAt(cs);
    var c := new Constellation([point]);
    cs' := cs + [c];
    GroupsAt(cs');
    assert forall i :: 0 <= i < |cs| ==> cs'[i] == cs[i];
    assert Groups(cs') == gs + [[point]];
  }

  /** The branch of `create_constellations` with one close constellation:
      the point is appended to it. */
  method PlaceOne(cs: seq<Constellation>, point: Point, c: Constellation)
    requires Distinct(cs)
    requires var near := NearIndices(Groups(cs), point, |cs|); |near| == 1 && c == cs[near[0]]
    modifies c
    ensures Groups(cs) == Add(old(Groups(cs)), point)
  {
    ghost var gs := Groups(cs);
    ghost var near := NearIndices(gs, point, |cs|);
    ghost var f := near[0];
    GroupsAt(cs);
    c.Push(point);
    GroupsAt(cs);
    DistinctAt(cs, f);
    assert Groups(cs) == gs[f := gs[f] + [point]];
    assert near == [f];
    MergeOne(gs, point, f);
  }

  /** The branch of `create_constellations` with several close
      constellations: all are merged into the first, with the point. */
  method PlaceMerge(cs: seq<Constellation>, point: Point, close: seq<Constellation>)
    returns (cs': seq<Constellation>)
    requires Distinct(cs) && Selected(cs, point, close) && |close| > 1
    modifies close[0]
    ensures Distinct(cs')
    ensures forall j :: 0 <= j < |cs'| ==> cs'[j] in cs
    ensures Groups(cs') == Add(old(Groups(cs)), point)
  {
    ghost var gs := Groups(cs);
    GroupsAt(cs);
    ghost var near := NearIndices(gs, point, |cs|);
    NearIndicesIncreasing(gs, point, |cs|);
    cs' := MergeInto(cs, close, point, near, gs);
    KeepOutDistinct(cs, near[1..], |cs|);
    forall j | 0 <= j < |cs'|
      ensures cs'[j] in cs
    {
      KeepOutMembers(cs, near[1..], |cs|, cs'[j]);
    }
  }

  /** One pass of the loop of `create_constellations`: the point starts
      a constellation, joins the one close constellation, or merges the
      close ones into the first. */
  method Place(cs: seq<Constellation>, point: Point) returns (cs': seq<Constellation>)
    requires Distinct(cs) && NoEmpty(Groups(cs))
    modifies cs
    ensures Distinct(cs')
    ensures forall j :: 0 <= j < |cs'| ==> cs'[j] in cs || fresh(cs'[j])
    ensures Groups(cs') == Add(old(Groups(cs)), point)
  {
    var close := SelectClose(cs, point);
    if |close| == 0 {
      cs' := PlaceNew(cs, point);
    } else if |close| == 1 {
      PlaceOne(cs, point, close[0]);
      cs' := cs;
    } else {
      cs' := PlaceMerge(cs, point, close);
    }
  }

  lemma BuildSnoc(points: seq<Point>, i: nat)
    requires i < |points|
    ensures Build(points[..i + 1]) == Add(Build(points[..i]), points[i])
  {
    assert points[..i + 1][..i] == points[..i];
  }

  /** `create_constellations`: the points are placed one at a time, each
      constellation is its own object, and the result is `Build`. */
  method CreateConstellations(points: seq<Point>) returns (cs: seq<Constellation>)
    ensures Distinct(cs)
    ensures Groups(cs) == Build(points)
  {
    cs := [];
    for i := 0 to |points|
      invariant Distinct(cs) && forall j :: 0 <= j < |cs| ==> fresh(cs[j])
      invariant Groups(cs) == Build(points[..i])
    {
      assert NoEmpty(Groups(cs)) by {
        BuildSeparated(points[..i]);
      }
      cs := Place(cs, points[i]);
      BuildSnoc(points, i);
    }
    assert points[..|points|] == points;
  }
}
