/** The marble game: marbles are placed in a circle kept as a circular
    doubly-linked list with a current node. Every 23rd marble is kept by
    the player together with the marble seven places counter-clockwise,
    which leaves the circle; every other marble goes in between the
    marbles one and two places clockwise and becomes current. */
module MarbleGame {
  import opened Wrappers

  const Nil: int := -1

  // ---------------------------------------------------------------------
  // The circle as a sequence read clockwise from the current marble.

  /** `next!`: the marble after the current one becomes current. */
  function RotateLeft(c: seq<int>): (r: seq<int>)
    ensures |r| == |c|
  {
    if c == [] then [] else c[1..] + [c[0]]
  }

  /** After `next!` each marble sits one place earlier, and the old current
      marble is last. */
  lemma RotateLeftAt(c: seq<int>)
    ensures forall i :: 0 <= i < |c| - 1 ==> RotateLeft(c)[i] == c[i + 1]
    ensures c != [] ==> RotateLeft(c)[|c| - 1] == c[0]
  {
  }

  /** `prev!`: the marble before the current one becomes current. */
  function RotateRight(c: seq<int>): (r: seq<int>)
    ensures |r| == |c|
  {
    if c == [] then [] else [c[|c| - 1]] + c[..|c| - 1]
  }

  /** After `prev!` each marble sits one place later, and the last marble
      is current. */
  lemma RotateRightAt(c: seq<int>)
    ensures forall i :: 0 < i < |c| ==> RotateRight(c)[i] == c[i - 1]
    ensures c != [] ==> RotateRight(c)[0] == c[|c| - 1]
  {
  }

  /** The two moves undo each other. */
  lemma RotateInverse(c: seq<int>)
    ensures RotateLeft(RotateRight(c)) == c && RotateRight(RotateLeft(c)) == c
  {
    if c != [] {
      assert RotateLeft(RotateRight(c)) == c;
      assert RotateRight(RotateLeft(c)) == c;
    }
  }

  /** `k` times `prev!`. */
  function RotateRightN(c: seq<int>, k: nat): (r: seq<int>)
    ensures |r| == |c|
  {
    if k == 0 then c else RotateRight(RotateRightN(c, k - 1))
  }

  /** Up to a full turn, `k` steps counter-clockwise start the circle at
      the marble `k` places before the current one. */
  lemma {:induction false} RotateRightNSplit(c: seq<int>, k: nat)
    requires k <= |c|
    ensures RotateRightN(c, k) == c[|c| - k..] + c[..|c| - k]
  {
    if k == 0 {
      assert c[|c|..] + c[..|c|] == c;
    } else {
      RotateRightNSplit(c, k - 1);
      assert RotateRightN(c, k) == RotateRight(RotateRightN(c, k - 1));
      TurnBackOnce(c, k);
    }
  }

  /** One more step counter-clockwise moves one more marble from the end
      of the circle to its front. */
  lemma TurnBackOnce(c: seq<int>, k: nat)
    requires 1 <= k <= |c|
    ensures RotateRight(c[|c| - (k - 1)..] + c[..|c| - (k - 1)]) == c[|c| - k..] + c[..|c| - k]
  {
    var n, j := |c|, |c| - k;
    var prior := c[j + 1..] + c[..j + 1];
    var r, t := RotateRight(prior), c[j..] + c[..j];
    forall i | 0 <= i < n
      ensures r[i] == t[i]
    {
      if i == 0 {
        assert r[0] == prior[n - 1];
      } else {
        assert r[i] == prior[i - 1];
      }
    }
    assert r == t;
  }

  /** `insert`: the new marble goes right after the current one, which
      stays current; into an empty circle it goes alone. */
  function InsertAfter(c: seq<int>, x: int): (r: seq<int>)
    ensures |r| == |c| + 1
    ensures c == [] ==> r == [x]
    ensures c != [] ==> r[0] == c[0] && r[1] == x && r[2..] == c[1..]
  {
    if c == [] then [x] else [c[0], x] + c[1..]
  }

  // ---------------------------------------------------------------------
  // The linked circle.

  /** The place after `i` round a circle of `n`. */
  function Succ(i: nat, n: nat): nat
  {
    if i + 1 == n then 0 else i + 1
  }

  /** The place before `i` round a circle of `n`. */
  function Pred(i: nat, n: nat): nat
    requires i < n
  {
    if i == 0 then n - 1 else i - 1
  }

  /** The nodes `order`, read clockwise from `current`: no node twice, and
      each linked both ways to the next one round the circle. */
  ghost predicate Ring(order: seq<nat>, prev: seq<int>, next: seq<int>, current: int)
  {
    (forall i :: 0 <= i < |order| ==> order[i] < |prev| && order[i] < |next|) &&
    (forall i, j :: 0 <= i < j < |order| ==> order[i] != order[j]) &&
    (order == [] ==> current == Nil) &&
    (order != [] ==> current == order[0]) &&
    (forall i {:trigger next[order[i]]} :: 0 <= i < |order| ==> next[order[i]] == order[Succ(i, |order|)]) &&
    (forall i {:trigger prev[order[i]]} :: 0 <= i < |order| ==> prev[order[i]] == order[Pred(i, |order|)])
  }

  lemma SuccPred(i: nat, n: nat)
    requires i < n
    ensures Succ(i, n) < n && Pred(Succ(i, n), n) == i
    ensures Pred(i, n) < n && Succ(Pred(i, n), n) == i
  {
  }

  /** Every node of the ring is its successor's predecessor. */
  lemma RingLinksAgree(order: seq<nat>, prev: seq<int>, next: seq<int>, current: int, node: nat)
    requires Ring(order, prev, next, current) && node in order
    ensures 0 <= next[node] < |prev| && prev[next[node]] == node
    ensures 0 <= prev[node] < |next| && next[prev[node]] == node
  {
    var i :| 0 <= i < |order| && order[i] == node;
    var n := |order|;
    SuccPred(i, n);
    assert next[order[i]] == order[Succ(i, n)];
    assert prev[order[Succ(i, n)]] == order[Pred(Succ(i, n), n)];
    assert prev[order[i]] == order[Pred(i, n)];
    assert next[order[Pred(i, n)]] == order[Succ(Pred(i, n), n)];
  }

  /** The current node is its own successor exactly when it is alone. */
  lemma RingAlone(order: seq<nat>, prev: seq<int>, next: seq<int>, current: int)
    requires Ring(order, prev, next, current) && order != []
    ensures 0 <= current < |next| && (next[current] == current <==> |order| == 1)
  {
    assert next[order[0]] == order[Succ(0, |order|)];
  }

  /** A turn of the order keeps it free of repeats. */
  lemma RotatedDistinct(order: seq<nat>, o: seq<nat>, left: bool)
    requires order != [] && |o| == |order| && forall i, j :: 0 <= i < j < |order| ==> order[i] != order[j]
    requires forall i :: 0 <= i < |o| ==> o[i] == order[if left then Succ(i, |order|) else Pred(i, |order|)]
    ensures forall i, j :: 0 <= i < j < |o| ==> o[i] != o[j]
  {
    var n := |order|;
    forall i, j | 0 <= i < j < n
      ensures o[i] != o[j]
    {
      var i' := if left then Succ(i, n) else Pred(i, n);
      var j' := if left then Succ(j, n) else Pred(j, n);
      SuccPred(i, n);
      SuccPred(j, n);
      assert o[i] == order[i'] && o[j] == order[j'];
      assert i' != j';
    }
  }

  /** `next!` on the ring: the successor is current and the order turns by
      one. */
  lemma RingRotateLeft(order: seq<nat>, prev: seq<int>, next: seq<int>, current: int)
    requires Ring(order, prev, next, current) && order != []
    ensures next[current] == (if |order| == 1 then order[0] else order[1])
    ensures Ring(order[1..] + [order[0]], prev, next, next[current])
  {
    var n := |order|;
    var o := order[1..] + [order[0]];
    assert next[order[0]] == order[Succ(0, n)];
    RotateLeftPlaces(order);
    TurnedNext(order, next, o, true);
    TurnedPrev(order, prev, o, true);
    RotatedDistinct(order, o, true);
  }

  lemma RotateLeftPlaces(order: seq<nat>)
    requires order != []
    ensures forall i :: 0 <= i < |order| ==> (order[1..] + [order[0]])[i] == order[Succ(i, |order|)]
  {
  }

  lemma RotateRightPlaces(order: seq<nat>)
    requires order != []
    ensures forall i :: 0 <= i < |order| ==> ([order[|order| - 1]] + order[..|order| - 1])[i] == order[Pred(i, |order|)]
  {
  }

  /** The `next` links of a turned order. */
  lemma TurnedNext(order: seq<nat>, next: seq<int>, o: seq<nat>, left: bool)
    requires order != [] && |o| == |order| && forall i :: 0 <= i < |order| ==> order[i] < |next|
    requires forall i {:trigger next[order[i]]} :: 0 <= i < |order| ==> next[order[i]] == order[Succ(i, |order|)]
    requires forall i :: 0 <= i < |o| ==> o[i] == order[if left then Succ(i, |order|) else Pred(i, |order|)]
    ensures forall i :: 0 <= i < |o| ==> o[i] < |next|
    ensures forall i {:trigger next[o[i]]} :: 0 <= i < |o| ==> next[o[i]] == o[Succ(i, |o|)]
  {
    var n := |order|;
    assert forall i :: 0 <= i < n ==> o[i] < |next| by {
      forall i | 0 <= i < n
        ensures o[i] < |next|
      {
        SuccPred(i, n);
      }
    }
    forall i | 0 <= i < n
      ensures next[o[i]] == o[Succ(i, n)]
    {
      var k := if left then Succ(i, n) else Pred(i, n);
      SuccPred(i, n);
      SuccPred(k, n);
      assert next[order[k]] == order[Succ(k, n)];
      assert o[Succ(i, n)] == order[if left then Succ(Succ(i, n), n) else Pred(Succ(i, n), n)];
    }
  }

  /** The `prev` links of a turned order. */
  lemma TurnedPrev(order: seq<nat>, prev: seq<int>, o: seq<nat>, left: bool)
    requires order != [] && |o| == |order| && forall i :: 0 <= i < |order| ==> order[i] < |prev|
    requires forall i {:trigger prev[order[i]]} :: 0 <= i < |order| ==> prev[order[i]] == order[Pred(i, |order|)]
    requires forall i :: 0 <= i < |o| ==> o[i] == order[if left then Succ(i, |order|) else Pred(i, |order|)]
    ensures forall i :: 0 <= i < |o| ==> o[i] < |prev|
    ensures forall i {:trigger prev[o[i]]} :: 0 <= i < |o| ==> prev[o[i]] == o[Pred(i, |o|)]
  {
    var n := |order|;
    assert forall i :: 0 <= i < n ==> o[i] < |prev| by {
      forall i | 0 <= i < n
        ensures o[i] < |prev|
      {
        SuccPred(i, n);
      }
    }
    forall i | 0 <= i < n
      ensures prev[o[i]] == o[Pred(i, n)]
    {
      var k := if left then Succ(i, n) else Pred(i, n);
      SuccPred(i, n);
      SuccPred(k, n);
      assert prev[order[k]] == order[Pred(k, n)];
      assert o[Pred(i, n)] == order[if left then Succ(Pred(i, n), n) else Pred(Pred(i, n), n)];
    }
  }

  /** `prev!` on the ring: the predecessor is current and the order turns
      back by one. */
  lemma RingRotateRight(order: seq<nat>, prev: seq<int>, next: seq<int>, current: int)
    requires Ring(order, prev, next, current) && order != []
    ensures prev[current] == order[|order| - 1]
    ensures Ring([order[|order| - 1]] + order[..|order| - 1], prev, next, prev[current])
  {
    var n := |order|;
    var o := [order[n - 1]] + order[..n - 1];
    assert prev[order[0]] == order[Pred(0, n)];
    RotateRightPlaces(order);
    TurnedNext(order, next, o, false);
    TurnedPrev(order, prev, o, false);
    RotatedDistinct(order, o, false);
  }

  /** `insert` into a one-node circle: the two nodes link to each other. */
  lemma RingInsertSingle(order: seq<nat>, prev: seq<int>, next: seq<int>, current: int, node: nat)
    requires Ring(order, prev, next, current) && |order| == 1
    requires node == |prev| == |next|
    ensures 0 <= current < |next|
    ensures Ring(order + [node], (prev + [current])[current := node], (next + [current])[current := node], current)
  {
    assert Succ(0, 2) == 1 && Succ(1, 2) == 0 && Pred(0, 2) == 1 && Pred(1, 2) == 0;
  }

  /** `insert` into a circle of at least two marbles: the new node goes
      between the current node and its successor. */
  lemma RingInsert(order: seq<nat>, prev: seq<int>, next: seq<int>, current: int, node: nat)
    requires Ring(order, prev, next, current) && |order| >= 2
    requires node == |prev| == |next|
    ensures 0 <= current < |next| && next[current] == order[1]
    ensures Ring([order[0], node] + order[1..], (prev + [current])[next[current] := node],
      (next + [next[current]])[current := node], current)
  {
    var n := |order|;
    assert next[order[0]] == order[Succ(0, n)];
    InsertedNextLinks(order, next, node);
    InsertedPrevLinks(order, prev, node);
    InsertedDistinct(order, node);
  }

  lemma InsertedNextLinks(order: seq<nat>, next: seq<int>, node: nat)
    requires |order| >= 2 && node == |next| && forall i :: 0 <= i < |order| ==> order[i] < |next|
    requires forall i, j :: 0 <= i < j < |order| ==> order[i] != order[j]
    requires forall i {:trigger next[order[i]]} :: 0 <= i < |order| ==> next[order[i]] == order[Succ(i, |order|)]
    ensures var o, next' := [order[0], node] + order[1..], (next + [order[1]])[order[0] := node];
      forall i {:trigger next'[o[i]]} :: 0 <= i < |o| ==> next'[o[i]] == o[Succ(i, |o|)]
  {
    var n := |order|;
    var o, next' := [order[0], node] + order[1..], (next + [order[1]])[order[0] := node];
    forall i | 0 <= i < n + 1
      ensures next'[o[i]] == o[Succ(i, n + 1)]
    {
      if i >= 2 {
        assert o[i] == order[i - 1];
        assert order[i - 1] != order[0];
        assert next[order[i - 1]] == order[Succ(i - 1, n)];
      }
    }
  }

  lemma InsertedPrevLinks(order: seq<nat>, prev: seq<int>, node: nat)
    requires |order| >= 2 && node == |prev| && forall i :: 0 <= i < |order| ==> order[i] < |prev|
    requires forall i, j :: 0 <= i < j < |order| ==> order[i] != order[j]
    requires forall i {:trigger prev[order[i]]} :: 0 <= i < |order| ==> prev[order[i]] == order[Pred(i, |order|)]
    ensures var o, prev' := [order[0], node] + order[1..], (prev + [order[0]])[order[1] := node];
      forall i {:trigger prev'[o[i]]} :: 0 <= i < |o| ==> prev'[o[i]] == o[Pred(i, |o|)]
  {
    var n := |order|;
    var o, prev' := [order[0], node] + order[1..], (prev + [order[0]])[order[1] := node];
    forall i | 0 <= i < n + 1
      ensures prev'[o[i]] == o[Pred(i, n + 1)]
    {
      if i == 0 {
        assert order[0] != order[1];
        assert prev[order[0]] == order[Pred(0, n)];
      } else if i > 2 {
        assert o[i] == order[i - 1];
        assert order[i - 1] != order[1];
        assert prev[order[i - 1]] == order[Pred(i - 1, n)];
      }
    }
  }

  lemma InsertedDistinct(order: seq<nat>, node: nat)
    requires forall i :: 0 <= i < |order| ==> order[i] < node
    requires |order| >= 1 && forall i, j :: 0 <= i < j < |order| ==> order[i] != order[j]
    ensures var o := [order[0], node] + order[1..];
      forall i, j :: 0 <= i < j < |o| ==> o[i] != o[j]
  {
    var o := [order[0], node] + order[1..];
    forall i, j | 0 <= i < j < |o|
      ensures o[i] != o[j]
    {
      if i >= 2 {
        assert o[i] == order[i - 1] && o[j] == order[j - 1];
      } else if j >= 2 {
        assert o[j] == order[j - 1];
      }
    }
  }

  /** `remove` from a circle of at least two marbles: the neighbours are
      linked to each other and the successor becomes current. */
  lemma RingRemove(order: seq<nat>, prev: seq<int>, next: seq<int>, current: int)
    requires Ring(order, prev, next, current) && |order| >= 2
    ensures 0 <= current < |next| && prev[current] == order[|order| - 1] && next[current] == order[1]
    ensures Ring(order[1..], prev[next[current] := prev[current]], next[prev[current] := next[current]], next[current])
  {
    var n := |order|;
    assert next[order[0]] == order[Succ(0, n)];
    assert prev[order[0]] == order[Pred(0, n)];
    RemovedNext(order, next);
    RemovedPrev(order, prev);
  }

  lemma RemovedNext(order: seq<nat>, next: seq<int>)
    requires |order| >= 2 && forall i :: 0 <= i < |order| ==> order[i] < |next|
    requires forall i, j :: 0 <= i < j < |order| ==> order[i] != order[j]
    requires forall i {:trigger next[order[i]]} :: 0 <= i < |order| ==> next[order[i]] == order[Succ(i, |order|)]
    ensures var o, next' := order[1..], next[order[|order| - 1] := order[1]];
      forall i {:trigger next'[o[i]]} :: 0 <= i < |o| ==> next'[o[i]] == o[Succ(i, |o|)]
  {
    var n := |order|;
    var o, next' := order[1..], next[order[n - 1] := order[1]];
    forall i | 0 <= i < n - 1
      ensures next'[o[i]] == o[Succ(i, n - 1)]
    {
      assert o[i] == order[i + 1];
      if i < n - 2 {
        assert order[i + 1] != order[n - 1];
        assert next[order[i + 1]] == order[Succ(i + 1, n)];
      }
    }
  }

  lemma RemovedPrev(order: seq<nat>, prev: seq<int>)
    requires |order| >= 2 && forall i :: 0 <= i < |order| ==> order[i] < |prev|
    requires forall i, j :: 0 <= i < j < |order| ==> order[i] != order[j]
    requires forall i {:trigger prev[order[i]]} :: 0 <= i < |order| ==> prev[order[i]] == order[Pred(i, |order|)]
    ensures var o, prev' := order[1..], prev[order[1] := order[|order| - 1]];
      forall i {:trigger prev'[o[i]]} :: 0 <= i < |o| ==> prev'[o[i]] == o[Pred(i, |o|)]
  {
    var n := |order|;
    var o, prev' := order[1..], prev[order[1] := order[n - 1]];
    forall i | 0 <= i < n - 1
      ensures prev'[o[i]] == o[Pred(i, n - 1)]
    {
      assert o[i] == order[i + 1];
      if i > 0 {
        assert order[i + 1] != order[1];
        assert prev[order[i + 1]] == order[Pred(i + 1, n)];
      }
    }
  }

  /** What `insert` does to the marbles read clockwise. */
  lemma ViewInsert(data: seq<int>, order: seq<nat>, x: int)
    requires order != [] && forall i :: 0 <= i < |order| ==> order[i] < |data|
    ensures View(data + [x], [order[0], |data|] + order[1..]) == InsertAfter(View(data, order), x)
  {
    var o := [order[0], |data|] + order[1..];
    assert forall i :: 2 <= i < |o| ==> o[i] == order[i - 1];
    var v := View(data + [x], o);
    var w := InsertAfter(View(data, order), x);
    assert |v| == |w|;
    forall i | 0 <= i < |v|
      ensures v[i] == w[i]
    {
      if i >= 2 {
        assert w[i] == w[2..][i - 2] == View(data, order)[1..][i - 2];
      }
    }
  }

  /** `insert`'s `prev` links: the new node `node` points back to the
      current node (or to itself in an empty list), and the current node's
      old successor points back to the new node. */
  function InsertedPrev(prev: seq<int>, next: seq<int>, current: int, node: nat): seq<int>
    requires node == |prev| == |next|
    requires current != Nil ==> 0 <= current < node && 0 <= next[current] < node
  {
    if current == Nil then prev + [node]
    else if current == next[current] then (prev + [current])[current := node]
    else (prev + [current])[next[current] := node]
  }

  /** `insert`'s `next` links: the new node points to the current node's
      old successor (or to itself), and the current node points to it. */
  function InsertedNext(next: seq<int>, current: int, node: nat): seq<int>
    requires node == |next|
    requires current != Nil ==> 0 <= current < node && 0 <= next[current] < node
  {
    if current == Nil then next + [node]
    else if current == next[current] then (next + [current])[current := node]
    else (next + [next[current]])[current := node]
  }

  /** `insert` in each of its three cases keeps a ring, with the new node
      right after the current one. */
  lemma InsertCorrect(data: seq<int>, order: seq<nat>, prev: seq<int>, next: seq<int>, current: int, x: int)
    returns (order': seq<nat>)
    requires |prev| == |data| && |next| == |data| && Ring(order, prev, next, current)
    ensures current != Nil ==> 0 <= current < |data| && 0 <= next[current] < |data|
    ensures Ring(order', InsertedPrev(prev, next, current, |data|), InsertedNext(next, current, |data|),
      if current == Nil then |data| else current)
    ensures forall i :: 0 <= i < |order'| ==> order'[i] < |data + [x]|
    ensures View(data + [x], order') == InsertAfter(View(data, order), x)
  {
    var node := |data|;
    if current == Nil {
      order' := [node];
      assert Succ(0, 1) == 0 && Pred(0, 1) == 0;
    } else {
      RingAlone(order, prev, next, current);
      assert next[order[0]] == order[Succ(0, |order|)];
      if current == next[current] {
        RingInsertSingle(order, prev, next, current, node);
        order' := order + [node];
        assert order' == [order[0], node] + order[1..];
      } else {
        RingInsert(order, prev, next, current, node);
        order' := [order[0], node] + order[1..];
      }
      ViewInsert(data, order, x);
    }
  }

  /** The marbles of the nodes `order`, in that order. */
  function View(data: seq<int>, order: seq<nat>): (s: seq<int>)
    requires forall i :: 0 <= i < |order| ==> order[i] < |data|
    ensures |s| == |order| && forall i :: 0 <= i < |order| ==> s[i] == data[order[i]]
  {
    seq(|order|, i requires 0 <= i < |order| => data[order[i]])
  }

  /** Reading the circle from the node after the current one is reading
      it rotated left. */
  lemma ViewRotateLeft(data: seq<int>, order: seq<nat>)
    requires order != [] && forall i :: 0 <= i < |order| ==> order[i] < |data|
    ensures View(data, order[1..] + [order[0]]) == RotateLeft(View(data, order))
  {
    var o := order[1..] + [order[0]];
    RotateLeftAt(View(data, order));
    assert forall i :: 0 <= i < |o| - 1 ==> o[i] == order[i + 1];
  }

  /** Reading the circle from the node before the current one is reading
      it rotated right. */
  lemma ViewRotateRight(data: seq<int>, order: seq<nat>)
    requires order != [] && forall i :: 0 <= i < |order| ==> order[i] < |data|
    ensures View(data, [order[|order| - 1]] + order[..|order| - 1]) == RotateRight(View(data, order))
  {
    var o := [order[|order| - 1]] + order[..|order| - 1];
    RotateRightAt(View(data, order));
    assert forall i :: 0 < i < |o| ==> o[i] == order[i - 1];
  }

  /** `CircularList`: node `k` holds `data[k]` and links `prev[k]`,
      `next[k]`; `current` is the current node or `Nil`. The ghost `order`
      lists the circle's nodes clockwise from the current one. */
  class CircularList {
    var data: seq<int>
    var prev: seq<int>
    var next: seq<int>
    var current: int
    ghost var order: seq<nat>

    ghost predicate Valid()
      reads this
    {
      |prev| == |data| && |next| == |data| && Ring(order, prev, next, current)
    }

    /** The marbles clockwise from the current one. */
    ghost function Contents(): (s: seq<int>)
      requires Valid()
      reads this
      ensures |s| == |order|
    {
      View(data, order)
    }

    constructor ()
      ensures Valid() && Contents() == []
    {
      data, prev, next := [], [], [];
      current := Nil;
      order := [];
    }

    /** `insert`: a one-node cycle in an empty list; otherwise the new node
        follows the current one, which stays current. */
    method Insert(x: int)
      requires Valid()
      modifies this
      ensures Valid() && Contents() == InsertAfter(old(Contents()), x)
    {
      var node := |data|;
      ghost var before := Contents();
      ghost var order' := InsertCorrect(data, order, prev, next, current, x);
      assert View(data + [x], order') == InsertAfter(before, x);
      data, prev, next, current, order := data + [x], InsertedPrev(prev, next, current, node),
        InsertedNext(next, current, node), if current == Nil then node else current, order';
      assert Valid();
      assert Contents() == View(data, order);
    }

    /** `next!`: one link clockwise; an empty list stays empty. */
    method Next()
      requires Valid()
      modifies this
      ensures Valid() && data == old(data) && Contents() == RotateLeft(old(Contents()))
    {
      if current != Nil {
        RingRotateLeft(order, prev, next, current);
        ViewRotateLeft(data, order);
        current := next[current];
        order := order[1..] + [order[0]];
      }
    }

    /** `prev!`: one link counter-clockwise; an empty list stays empty. */
    method Prev()
      requires Valid()
      modifies this
      ensures Valid() && data == old(data) && Contents() == RotateRight(old(Contents()))
    {
      if current != Nil {
        RingRotateRight(order, prev, next, current);
        ViewRotateRight(data, order);
        current := prev[current];
        order := [order[|order| - 1]] + order[..|order| - 1];
      }
    }

    /** `remove`: the current marble leaves the circle and is returned, and
        its successor becomes current; an empty list raises. */
    method Remove() returns (r: Result<int>)
      requires Valid()
      modifies this
      ensures Valid()
      ensures old(Contents()) == [] ==> r.Fail? && Contents() == []
      ensures old(Contents()) != [] ==> r == Ok(old(Contents())[0]) && Contents() == old(Contents())[1..]
    {
      if current == Nil {
        return Fail("Cannot remove from empty list");
      }
      var removed := current;
      RingAlone(order, prev, next, current);
      if current == next[current] {
        current := Nil;
        order := [];
      } else {
        RingRemove(order, prev, next, current);
        var p, q := prev[current], next[current];
        next := next[p := q];
        prev := prev[q := p];
        current := q;
        order := order[1..];
      }
      r := Ok(data[removed]);
    }

    /** `each_element`: the marbles clockwise, starting at the current one
        and stopping on coming back to it. */
    method EachElement() returns (s: seq<int>)
      requires Valid()
      ensures s == Contents()
    {
      s := [];
      if current == Nil {
        return;
      }
      var node := current;
      var i := 0;
      while true
        invariant 0 <= i < |order| && node == order[i]
        invariant s == Contents()[..i]
        decreases |order| - i
      {
        s := s + [data[node]];
        node := next[node];
        if node == current {
          assert i == |order| - 1;
          return;
        }
        i := i + 1;
      }
    }
  }

  // ---------------------------------------------------------------------
  // The game, as a reference on values.

  /** The circle (clockwise from the current marble) and each player's
      marbles. */
  datatype State = State(circle: seq<int>, marbles: seq<seq<int>>)

  /** `@players[(marble % @players.size) - 1]`: a remainder of 0 indexes
      the last player. */
  function PlayerIndex(marble: nat, count: nat): (p: nat)
    requires count >= 1
    ensures p < count
  {
    if marble % count == 0 then count - 1 else marble % count - 1
  }

  /** Players take turns in order: marble 1 goes to the first player. */
  lemma PlayerIndexTurns(marble: nat, count: nat)
    requires count >= 1 && marble >= 1
    ensures PlayerIndex(marble, count) == (marble - 1) % count
  {
    var q, r := (marble - 1) / count, (marble - 1) % count;
    assert marble == q * count + (r + 1);
    if r + 1 < count {
      ModOfMultiplePlus(q, count, r + 1);
    } else {
      assert marble == (q + 1) * count + 0;
      ModOfMultiplePlus(q + 1, count, 0);
    }
  }

  /** Euclidean division is unique. */
  lemma ModOfMultiplePlus(q: nat, n: nat, b: nat)
    requires b < n
    ensures (q * n + b) % n == b
  {
    var y := q * n + b;
    var k := y / n - q;
    var b' := y % n;
    assert y == n * (y / n) + b';
    assert n * k == b - b' by {
      assert n * (y / n - q) == n * (y / n) - n * q;
    }
  }

  /** Every player's hand empty. */
  function NoMarbles(count: nat): (r: seq<seq<int>>)
    ensures |r| == count && forall p :: 0 <= p < count ==> r[p] == []
  {
    seq(count, _ => [])
  }

  /** The number of marbles in the circle after marble `m`. */
  function CircleSize(m: nat): (n: nat)
    ensures n >= 1
  {
    1 + m - 2 * (m / 23)
  }

  /** `play_round`. */
  function Round(s: State, marble: nat): (r: State)
    requires s.circle != [] && |s.marbles| >= 1
    ensures |r.marbles| == |s.marbles|
  {
    var p := PlayerIndex(marble, |s.marbles|);
    if marble % 23 == 0 then
      var c := RotateRightN(s.circle, 7);
      State(c[1..], s.marbles[p := s.marbles[p] + [marble, c[0]]])
    else
      State(RotateLeft(InsertAfter(RotateLeft(s.circle), marble)), s.marbles)
  }

  /** The game after marbles `1..m` with `count` players. */
  function Simulate(count: nat, m: nat): (r: State)
    requires count >= 1
    ensures |r.marbles| == count && |r.circle| == CircleSize(m)
  {
    if m == 0 then State([0], NoMarbles(count))
    else
      var s := Simulate(count, m - 1);
      var r := Round(s, m);
      assert |r.circle| == CircleSize(m) by {
        if m % 23 == 0 {
          assert m / 23 == (m - 1) / 23 + 1;
        } else {
          assert m / 23 == (m - 1) / 23;
        }
      }
      r
  }

  /** An ordinary round puts the marble between the marbles one and two
      places clockwise of the old current one, and makes it current. */
  lemma OrdinaryRoundPlacement(s: State, marble: nat)
    requires s.circle != [] && |s.marbles| >= 1 && marble % 23 != 0
    ensures Round(s, marble).circle[0] == marble
    ensures |s.circle| >= 2 ==> (Round(s, marble).circle[|s.circle| - 1] == s.circle[0] &&
      Round(s, marble).circle[|s.circle|] == s.circle[1])
    ensures |s.circle| == 1 ==> Round(s, marble).circle == [marble, s.circle[0]]
  {
    var c := s.circle;
    var n := |c|;
    var inserted := InsertAfter(RotateLeft(c), marble);
    if n >= 2 {
      assert inserted[0] == c[1];
      assert RotateLeft(c)[n - 1] == c[0];
      assert inserted[n] == c[0];
    }
  }

  /** A round on a multiple of 23: the player keeps the marble and the one
      seven places counter-clockwise, and the marble after that becomes
      current. */
  lemma ScoringRoundRemoval(s: State, marble: nat)
    requires |s.circle| >= 8 && |s.marbles| >= 1 && marble % 23 == 0
    ensures var p := PlayerIndex(marble, |s.marbles|);
      Round(s, marble).marbles[p] == s.marbles[p] + [marble, s.circle[|s.circle| - 7]]
    ensures Round(s, marble).circle[0] == s.circle[|s.circle| - 6]
    ensures Round(s, marble).marbles[..PlayerIndex(marble, |s.marbles|)] == s.marbles[..PlayerIndex(marble, |s.marbles|)]
  {
    RotateRightNSplit(s.circle, 7);
  }

  function TotalScore(marbles: seq<seq<int>>): int
  {
    if marbles == [] then 0 else TotalScore(marbles[..|marbles| - 1]) + Sum(marbles[|marbles| - 1])
  }

  /** `0 + 1 + ... + m`. */
  function Triangle(m: nat): nat
  {
    if m == 0 then 0 else Triangle(m - 1) + m
  }

  lemma {:induction false} TriangleClosedForm(m: nat)
    ensures 2 * Triangle(m) == m * (m + 1)
  {
    if m > 0 {
      TriangleClosedForm(m - 1);
      assert m * (m + 1) == (m - 1) * m + 2 * m;
    }
  }

  /** Every marble placed so far is either in the circle or held by a
      player: the circle and all hands together sum to `0 + 1 + ... + m`. */
  lemma {:induction false} MarblesConserved(count: nat, m: nat)
    requires count >= 1
    ensures Total(Simulate(count, m)) == Triangle(m)
  {
    StartConserved(count);
    var i := 0;
    while i < m
      invariant i <= m && Total(Simulate(count, i)) == Triangle(i)
    {
      ConservedStep(count, i + 1);
      i := i + 1;
    }
  }

  lemma ConservedStep(count: nat, m: nat)
    requires count >= 1 && m >= 1
    ensures Total(Simulate(count, m)) == Total(Simulate(count, m - 1)) + m
  {
    var s := Simulate(count, m - 1);
    assert Simulate(count, m) == Round(s, m);
    RoundConserves(s, m);
  }

  /** The marbles in the circle and in all hands. */
  function Total(s: State): int
  {
    Sum(s.circle) + TotalScore(s.marbles)
  }

  lemma StartConserved(count: nat)
    requires count >= 1
    ensures Total(Simulate(count, 0)) == 0
  {
    assert Simulate(count, 0) == State([0], NoMarbles(count));
    assert Sum([0]) == Sum([]) + 0;
    EmptyHands(count);
  }

  lemma EmptyHands(count: nat)
    ensures TotalScore(NoMarbles(count)) == 0
  {
    if count > 0 {
      assert NoMarbles(count)[..count - 1] == NoMarbles(count - 1);
      EmptyHands(count - 1);
    }
  }

  lemma RoundConserves(s: State, marble: nat)
    requires s.circle != [] && |s.marbles| >= 1
    ensures Total(Round(s, marble)) == Total(s) + marble
  {
    var p := PlayerIndex(marble, |s.marbles|);
    if marble % 23 == 0 {
      var c := RotateRightN(s.circle, 7);
      RotateRightNSum(s.circle, 7);
      assert c == [c[0]] + c[1..];
      SumAppend([c[0]], c[1..]);
      assert Sum([c[0]]) == Sum([]) + c[0];
      SumAppend(s.marbles[p], [marble, c[0]]);
      assert Sum([marble, c[0]]) == Sum([marble]) + c[0];
      assert Sum([marble]) == Sum([]) + marble;
      TotalScoreUpdate(s.marbles, p, s.marbles[p] + [marble, c[0]]);
    } else {
      var c := s.circle;
      RotateLeftSum(c);
      var d := RotateLeft(c);
      var e := InsertAfter(d, marble);
      assert e == [d[0]] + ([marble] + d[1..]);
      assert d == [d[0]] + d[1..];
      SumAppend([d[0]], [marble] + d[1..]);
      SumAppend([marble], d[1..]);
      SumAppend([d[0]], d[1..]);
      assert Sum([marble]) == Sum([]) + marble;
      RotateLeftSum(e);
    }
  }

  lemma RotateLeftSum(c: seq<int>)
    ensures Sum(RotateLeft(c)) == Sum(c)
  {
    if c != [] {
      SumAppend(c[1..], [c[0]]);
      assert c == [c[0]] + c[1..];
      SumAppend([c[0]], c[1..]);
      assert Sum([c[0]]) == Sum([]) + c[0];
    }
  }

  lemma RotateRightSum(c: seq<int>)
    ensures Sum(RotateRight(c)) == Sum(c)
  {
    if c != [] {
      RotateInverse(c);
      RotateLeftSum(RotateRight(c));
    }
  }

  lemma {:induction false} RotateRightNSum(c: seq<int>, k: nat)
    ensures Sum(RotateRightN(c, k)) == Sum(c)
  {
    if k > 0 {
      RotateRightNSum(c, k - 1);
      RotateRightSum(RotateRightN(c, k - 1));
    }
  }

  lemma {:induction false} TotalScoreUpdate(marbles: seq<seq<int>>, p: nat, hand: seq<int>)
    requires p < |marbles|
    ensures TotalScore(marbles[p := hand]) == TotalScore(marbles) - Sum(marbles[p]) + Sum(hand)
  {
    var n := |marbles|;
    if p == n - 1 {
      assert marbles[p := hand][..n - 1] == marbles[..n - 1];
    } else {
      assert marbles[p := hand][..n - 1] == marbles[..n - 1][p := hand];
      TotalScoreUpdate(marbles[..n - 1], p, hand);
    }
  }

  // ---------------------------------------------------------------------
  // The game object.

  /** `Game`: each player's marbles (`Player#add_marble` appends), the last
      marble, and the circle, which starts as the marble 0. */
  class Game {
    var marbles: seq<seq<int>>
    const lastMarble: nat
    const circle: CircularList

    constructor (playerCount: nat, lastMarble: nat)
      requires playerCount >= 1
      ensures this.lastMarble == lastMarble && fresh(circle)
      ensures circle.Valid() && circle.Contents() == [0] && marbles == NoMarbles(playerCount)
    {
      this.lastMarble := lastMarble;
      marbles := NoMarbles(playerCount);
      var c := new CircularList();
      c.Insert(0);
      circle := c;
    }

    /** `play_round`: exactly the reference round. */
    method PlayRound(marble: nat)
      requires circle.Valid() && circle.Contents() != [] && |marbles| >= 1
      modifies this, circle
      ensures circle.Valid() && State(circle.Contents(), marbles) == Round(old(State(circle.Contents(), marbles)), marble)
    {
      ghost var start := State(circle.Contents(), marbles);
      var player := PlayerIndex(marble, |marbles|);
      if marble % 23 == 0 {
        marbles := marbles[player := marbles[player] + [marble]];
        for i := 0 to 7
          invariant circle.Valid() && circle.Contents() == RotateRightN(start.circle, i)
          invariant marbles == start.marbles[player := start.marbles[player] + [marble]]
        {
          circle.Prev();
        }
        ghost var turned := circle.Contents();
        var removed := circle.Remove();
        marbles := marbles[player := marbles[player] + [removed.value]];
        assert removed.value == turned[0] && circle.Contents() == turned[1..];
        assert start.marbles[player] + [marble] + [turned[0]] == start.marbles[player] + [marble, turned[0]];
      } else {
        circle.Next();
        circle.Insert(marble);
        circle.Next();
      }
    }

    /** `Player#score` of every player. */
    function Score(p: nat): int
      requires p < |marbles|
      reads this
    {
      Sum(marbles[p])
    }

    /** `play`: all rounds, then the highest score. */
    method Play() returns (best: int)
      requires circle.Valid() && circle.Contents() == [0] && marbles == NoMarbles(|marbles|) && |marbles| >= 1
      modifies this, circle
      ensures var s := Simulate(|old(marbles)|, lastMarble);
        (exists p :: 0 <= p < |s.marbles| && best == Sum(s.marbles[p])) &&
        forall p :: 0 <= p < |s.marbles| ==> Sum(s.marbles[p]) <= best
    {
      var count := |marbles|;
      for marble := 1 to lastMarble + 1
        invariant circle.Valid() && |marbles| == count
        invariant State(circle.Contents(), marbles) == Simulate(count, marble - 1)
      {
        PlayRound(marble);
      }
      best := HighScore(marbles);
    }
  }

  /** The highest of the players' scores. */
  method HighScore(hands: seq<seq<int>>) returns (best: int)
    requires hands != []
    ensures (exists p :: 0 <= p < |hands| && best == Sum(hands[p])) &&
      forall p :: 0 <= p < |hands| ==> Sum(hands[p]) <= best
  {
    best := Sum(hands[0]);
    for p := 1 to |hands|
      invariant exists q :: 0 <= q < p && best == Sum(hands[q])
      invariant forall q :: 0 <= q < p ==> Sum(hands[q]) <= best
    {
      if Sum(hands[p]) > best {
        best := Sum(hands[p]);
      }
    }
  }
}
