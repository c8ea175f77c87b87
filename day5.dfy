/** Polymer reduction: adjacent units of the same type and opposite
    polarity (the same letter in lower and upper case) react and vanish.
    The reaction walks a doubly-linked list of units, stepping back after
    each reaction; the optimum removes one unit type before reacting. */
module Polymer {
  import opened Wrappers

  const Nil: int := -1

  // ---------------------------------------------------------------------
  // Reacting units.

  function Lower(i: nat): char
    requires i < 26
  {
    ('a' as int + i) as char
  }

  function Upper(i: nat): char
    requires i < 26
  {
    ('A' as int + i) as char
  }

  /** `@reacting_elements`: `aA`, `Aa`, `bB`, `Bb`, ... for the 26 letters. */
  ghost function ReactingElements(): set<string>
  {
    (set i: nat | i < 26 :: [Lower(i), Upper(i)]) + (set i: nat | i < 26 :: [Upper(i), Lower(i)])
  }

  /** `reacts?`: the two units are the same letter in opposite case. */
  predicate Reacts(c1: char, c2: char)
  {
    ('a' <= c1 <= 'z' && c2 as int == c1 as int - 32) || ('A' <= c1 <= 'Z' && c2 as int == c1 as int + 32)
  }

  /** The test agrees with the set of reacting two-letter strings. */
  lemma ReactsIffReactingElement(c1: char, c2: char)
    ensures Reacts(c1, c2) <==> [c1, c2] in ReactingElements()
  {
    if Reacts(c1, c2) {
      if 'a' <= c1 <= 'z' {
        var i: nat := c1 as int - 'a' as int;
        assert [c1, c2] == [Lower(i), Upper(i)];
      } else {
        var i: nat := c1 as int - 'A' as int;
        assert [c1, c2] == [Upper(i), Lower(i)];
      }
    }
  }

  /** Reacting is symmetric, and no unit reacts with itself. */
  lemma ReactsSymmetric(c1: char, c2: char)
    ensures Reacts(c1, c2) <==> Reacts(c2, c1)
    ensures !Reacts(c1, c1)
  {
  }

  // ---------------------------------------------------------------------
  // The reaction as a reference function, and what it guarantees.

  /** The reaction read left to right: `stack` holds the units kept so far,
      `rest` those not yet looked at; the next unit either cancels the last
      kept one or is kept. */
  function React(stack: string, rest: string): string
    decreases |rest|
  {
    if rest == [] then stack
    else if stack != [] && Reacts(stack[|stack| - 1], rest[0]) then React(stack[..|stack| - 1], rest[1..])
    else React(stack + [rest[0]], rest[1..])
  }

  /** No two neighbours react. */
  predicate Inert(s: string)
  {
    forall i :: 0 <= i < |s| - 1 ==> !Reacts(s[i], s[i + 1])
  }

  /** One reaction: the neighbours at `k` and `k + 1` vanish. */
  ghost predicate ReactionStep(s: string, t: string)
  {
    exists k :: 0 <= k < |s| - 1 && Reacts(s[k], s[k + 1]) && t == s[..k] + s[k + 2..]
  }

  /** `t` is reached from `s` by reactions only: units vanish in reacting
      pairs and the others keep their order. */
  ghost predicate ReducesTo(s: string, t: string)
    decreases |s|
  {
    s == t || exists k :: 0 <= k < |s| - 1 && Reacts(s[k], s[k + 1]) && ReducesTo(s[..k] + s[k + 2..], t)
  }

  /** The reference reaction from an inert stack ends inert. */
  lemma {:induction false} ReactIsInert(stack: string, rest: string)
    requires Inert(stack)
    ensures Inert(React(stack, rest))
    decreases |rest|
  {
    if rest != [] {
      if stack != [] && Reacts(stack[|stack| - 1], rest[0]) {
        ReactIsInert(stack[..|stack| - 1], rest[1..]);
      } else {
        ReactIsInert(stack + [rest[0]], rest[1..]);
      }
    }
  }

  /** The reference reaction only removes reacting pairs. */
  lemma {:induction false} ReactReduces(stack: string, rest: string)
    ensures ReducesTo(stack + rest, React(stack, rest))
    decreases |rest|
  {
    if rest != [] {
      if stack != [] && Reacts(stack[|stack| - 1], rest[0]) {
        var k := |stack| - 1;
        var s := stack + rest;
        ReactReduces(stack[..k], rest[1..]);
        assert s[k] == stack[k] && s[k + 1] == rest[0];
        assert s[..k] + s[k + 2..] == stack[..k] + rest[1..];
      } else {
        ReactReduces(stack + [rest[0]], rest[1..]);
        assert stack + [rest[0]] + rest[1..] == stack + rest;
      }
    } else {
      assert stack + rest == stack;
    }
  }

  /** A reaction sequence removes units two at a time. */
  lemma {:induction false} ReducesByPairs(s: string, t: string)
    requires ReducesTo(s, t)
    ensures |t| <= |s| && (|s| - |t|) % 2 == 0
    decreases |s|
  {
    if s != t {
      var k :| 0 <= k < |s| - 1 && Reacts(s[k], s[k + 1]) && ReducesTo(s[..k] + s[k + 2..], t);
      var s' := s[..k] + s[k + 2..];
      assert |s'| == |s| - 2;
      ReducesByPairs(s', t);
    }
  }

  // ---------------------------------------------------------------------
  // The doubly-linked list.

  /** `List`: nodes are numbered in the order they are created; `prev` and
      `next` hold each node's links (`Nil` for none). The ghost `order` is
      the chain from `head` to `tail`. */
  class List {
    var data: seq<char>
    var prev: seq<int>
    var next: seq<int>
    var head: int
    var tail: int
    ghost var order: seq<nat>

    ghost predicate Valid()
      reads this
    {
      |prev| == |data| && |next| == |data| && Chain(order, prev, next, head, tail)
    }

    /** The units from `head` to `tail`. */
    ghost function Contents(): (s: string)
      requires Valid()
      reads this
      ensures |s| == |order|
    {
      View(data, order)
    }

    constructor ()
      ensures Valid() && order == [] && data == []
    {
      data, prev, next := [], [], [];
      head, tail := Nil, Nil;
      order := [];
    }

    /** `append`: a new node after the tail; the head changes only when the
        list was empty. */
    method Append(c: char) returns (node: nat)
      requires Valid()
      modifies this
      ensures Valid()
      ensures node == |old(data)| && order == old(order) + [node]
      ensures Contents() == old(Contents()) + [c]
      ensures old(head) != Nil ==> head == old(head)
    {
      node := |data|;
      if tail != Nil {
        data, prev, next := data + [c], prev + [tail], (next + [Nil])[tail := node];
        tail := node;
      } else {
        data, prev, next := data + [c], prev + [Nil], next + [Nil];
        head, tail := node, node;
      }
      order := order + [node];
    }

    /** `remove`: unlinks a head, tail or middle node and keeps the order of
        the others; the removed node keeps its own links. On an empty list
        it raises. The ghost `k` is the node's position in the chain. */
    method Remove(node: nat, ghost k: nat) returns (r: Result<()>)
      requires Valid() && (order == [] || (k < |order| && order[k] == node))
      modifies this
      ensures Valid() && data == old(data)
      ensures old(order) == [] ==> r.Fail? && order == old(order)
      ensures old(order) != [] ==> r.Ok? && order == old(order)[..k] + old(order)[k + 1..]
      ensures old(order) != [] ==> Contents() == old(Contents())[..k] + old(Contents())[k + 1..]
      ensures old(order) != [] ==> node < |next| && next[node] == old(next[node]) && prev[node] == old(prev[node])
    {
      if head == Nil {
        return Fail("Cannot remove from empty list");
      }
      ghost var order' := UnlinkCorrect(order, prev, next, head, tail, k);
      prev, next, head, tail := UnlinkPrev(prev, next, head, tail, node), UnlinkNext(prev, next, head, tail, node),
        UnlinkHeadOf(next, head, tail, node), UnlinkTailOf(prev, head, tail, node);
      order := order';
      ViewRemove(data, old(order), k);
      assert Contents() == old(Contents())[..k] + old(Contents())[k + 1..];
      r := Ok(());
    }

    /** `each_element`: the units from `head` along the `next` links. */
    method EachElement() returns (s: string)
      requires Valid()
      ensures s == Contents()
    {
      s := [];
      var node := head;
      var i := 0;
      while node != Nil
        invariant 0 <= i <= |order|
        invariant s == Contents()[..i]
        invariant node == if i < |order| then order[i] else Nil
        decreases |order| - i
      {
        s := s + [data[node]];
        node := next[node];
        i := i + 1;
      }
    }
  }

  /** The links of the nodes `order`, from `head` to `tail`: no node twice,
      each linked to its neighbours, nothing before the head or after the
      tail. */
  ghost predicate Chain(order: seq<nat>, prev: seq<int>, next: seq<int>, head: int, tail: int)
  {
    (forall i :: 0 <= i < |order| ==> order[i] < |prev| && order[i] < |next|) &&
    (forall i, j :: 0 <= i < j < |order| ==> order[i] != order[j]) &&
    (order == [] ==> head == Nil && tail == Nil) &&
    (order != [] ==> (head == order[0] && tail == order[|order| - 1] &&
      prev[head] == Nil && next[tail] == Nil)) &&
    (forall i :: 0 <= i < |order| - 1 ==> next[order[i]] == order[i + 1] && prev[order[i + 1]] == order[i])
  }

  /** `remove`'s rewiring of the `prev` links around `node`. */
  function UnlinkPrev(prev: seq<int>, next: seq<int>, head: int, tail: int, node: nat): seq<int>
    requires node < |next| && node < |prev|
    requires node != tail ==> 0 <= next[node] < |prev|
  {
    if node == head && node == tail then prev
    else if node == head then prev[next[node] := Nil]
    else if node == tail then prev
    else prev[next[node] := prev[node]]
  }

  /** `remove`'s rewiring of the `next` links around `node`. */
  function UnlinkNext(prev: seq<int>, next: seq<int>, head: int, tail: int, node: nat): seq<int>
    requires node < |prev| && node < |next|
    requires node != head ==> 0 <= prev[node] < |next|
  {
    if node == head && node == tail then next
    else if node == head then next
    else if node == tail then next[prev[node] := Nil]
    else next[prev[node] := next[node]]
  }

  function UnlinkHeadOf(next: seq<int>, head: int, tail: int, node: nat): int
    requires node < |next|
  {
    if node == head && node == tail then Nil
    else if node == head then next[node]
    else head
  }

  function UnlinkTailOf(prev: seq<int>, head: int, tail: int, node: nat): int
    requires node < |prev|
  {
    if node == head && node == tail then Nil
    else if node == tail then prev[node]
    else tail
  }

  /** `remove` at position `k` of the chain leaves the chain without it;
      the removed node's own links are untouched. */
  lemma UnlinkCorrect(order: seq<nat>, prev: seq<int>, next: seq<int>, head: int, tail: int, k: nat)
    returns (order': seq<nat>)
    requires Chain(order, prev, next, head, tail) && k < |order|
    ensures order' == order[..k] + order[k + 1..]
    ensures order[k] != tail ==> 0 <= next[order[k]] < |prev|
    ensures order[k] != head ==> 0 <= prev[order[k]] < |next|
    ensures Chain(order', UnlinkPrev(prev, next, head, tail, order[k]), UnlinkNext(prev, next, head, tail, order[k]),
      UnlinkHeadOf(next, head, tail, order[k]), UnlinkTailOf(prev, head, tail, order[k]))
    ensures UnlinkPrev(prev, next, head, tail, order[k])[order[k]] == prev[order[k]]
    ensures UnlinkNext(prev, next, head, tail, order[k])[order[k]] == next[order[k]]
  {
    order' := order[..k] + order[k + 1..];
    if |order| == 1 {
      UnlinkOnly(order, prev, next, head, tail);
    } else if k == 0 {
      UnlinkFirst(order, prev, next, head, tail);
    } else if k == |order| - 1 {
      UnlinkLast(order, prev, next, head, tail);
    } else {
      UnlinkInner(order, prev, next, head, tail, k);
    }
    assert Unlinked(order, prev, next, head, tail, k);
  }

  /** What `UnlinkCorrect` states of removing the node at position `k`. */
  ghost predicate Unlinked(order: seq<nat>, prev: seq<int>, next: seq<int>, head: int, tail: int, k: nat)
    requires Chain(order, prev, next, head, tail) && k < |order|
  {
    var node := order[k];
    && (node != tail ==> 0 <= next[node] < |prev|)
    && (node != head ==> 0 <= prev[node] < |next|)
    && Chain(order[..k] + order[k + 1..], UnlinkPrev(prev, next, head, tail, node), UnlinkNext(prev, next, head, tail, node),
      UnlinkHeadOf(next, head, tail, node), UnlinkTailOf(prev, head, tail, node))
    && UnlinkPrev(prev, next, head, tail, node)[node] == prev[node]
    && UnlinkNext(prev, next, head, tail, node)[node] == next[node]
  }

  lemma UnlinkOnly(order: seq<nat>, prev: seq<int>, next: seq<int>, head: int, tail: int)
    requires Chain(order, prev, next, head, tail) && |order| == 1
    ensures Unlinked(order, prev, next, head, tail, 0)
  {
    assert order[..0] + order[1..] == [];
  }

  lemma UnlinkFirst(order: seq<nat>, prev: seq<int>, next: seq<int>, head: int, tail: int)
    requires Chain(order, prev, next, head, tail) && |order| > 1
    ensures Unlinked(order, prev, next, head, tail, 0)
  {
    var node := order[0];
    assert node == head && node != tail;
    UnlinkHead(order, prev, next, head, tail);
    assert order[..0] + order[1..] == order[1..];
    assert UnlinkPrev(prev, next, head, tail, node) == prev[order[1] := Nil];
    assert UnlinkNext(prev, next, head, tail, node) == next;
    assert UnlinkHeadOf(next, head, tail, node) == order[1];
    assert UnlinkTailOf(prev, head, tail, node) == tail;
  }

  lemma UnlinkLast(order: seq<nat>, prev: seq<int>, next: seq<int>, head: int, tail: int)
    requires Chain(order, prev, next, head, tail) && |order| > 1
    ensures Unlinked(order, prev, next, head, tail, |order| - 1)
  {
    var k := |order| - 1;
    var node := order[k];
    assert node == tail && node != head;
    UnlinkTail(order, prev, next, head, tail);
    assert order[..k] + order[k + 1..] == order[..k];
    assert UnlinkPrev(prev, next, head, tail, node) == prev;
    assert UnlinkNext(prev, next, head, tail, node) == next[order[k - 1] := Nil];
    assert UnlinkHeadOf(next, head, tail, node) == head;
    assert UnlinkTailOf(prev, head, tail, node) == order[k - 1];
  }

  lemma UnlinkInner(order: seq<nat>, prev: seq<int>, next: seq<int>, head: int, tail: int, k: nat)
    requires Chain(order, prev, next, head, tail) && 0 < k < |order| - 1
    ensures Unlinked(order, prev, next, head, tail, k)
  {
    var node := order[k];
    assert node != head && node != tail;
    UnlinkMiddle(order, prev, next, head, tail, k);
    assert UnlinkPrev(prev, next, head, tail, node) == prev[order[k + 1] := order[k - 1]];
    assert UnlinkNext(prev, next, head, tail, node) == next[order[k - 1] := order[k + 1]];
    assert UnlinkHeadOf(next, head, tail, node) == head;
    assert UnlinkTailOf(prev, head, tail, node) == tail;
  }

  /** Unlinking the head: its successor becomes the head. */
  lemma UnlinkHead(order: seq<nat>, prev: seq<int>, next: seq<int>, head: int, tail: int)
    requires Chain(order, prev, next, head, tail) && |order| > 1
    ensures next[head] == order[1]
    ensures Chain(order[1..], prev[order[1] := Nil], next, order[1], tail)
  {
    var o' := order[1..];
    var prev' := prev[order[1] := Nil];
    forall i | 0 <= i < |o'| - 1
      ensures next[o'[i]] == o'[i + 1] && prev'[o'[i + 1]] == o'[i]
    {
      assert o'[i + 1] == order[i + 2] != order[1];
    }
  }

  /** Unlinking the tail: its predecessor becomes the tail. */
  lemma UnlinkTail(order: seq<nat>, prev: seq<int>, next: seq<int>, head: int, tail: int)
    requires Chain(order, prev, next, head, tail) && |order| > 1
    ensures prev[tail] == order[|order| - 2]
    ensures Chain(order[..|order| - 1], prev, next[order[|order| - 2] := Nil], head, order[|order| - 2])
  {
    var k := |order| - 1;
    var o' := order[..k];
    var next' := next[order[k - 1] := Nil];
    forall i | 0 <= i < |o'| - 1
      ensures next'[o'[i]] == o'[i + 1] && prev[o'[i + 1]] == o'[i]
    {
      assert o'[i] == order[i] != order[k - 1];
    }
  }

  /** Unlinking an inner node: its neighbours are linked to each other. */
  lemma UnlinkMiddle(order: seq<nat>, prev: seq<int>, next: seq<int>, head: int, tail: int, k: nat)
    requires Chain(order, prev, next, head, tail) && 0 < k < |order| - 1
    ensures prev[order[k]] == order[k - 1] && next[order[k]] == order[k + 1]
    ensures Chain(order[..k] + order[k + 1..], prev[order[k + 1] := order[k - 1]],
      next[order[k - 1] := order[k + 1]], head, tail)
  {
    var o' := order[..k] + order[k + 1..];
    var prev' := prev[order[k + 1] := order[k - 1]];
    var next' := next[order[k - 1] := order[k + 1]];
    assert forall i :: 0 <= i < |o'| ==> o'[i] == if i < k then order[i] else order[i + 1];
    forall i | 0 <= i < |o'| - 1
      ensures next'[o'[i]] == o'[i + 1] && prev'[o'[i + 1]] == o'[i]
    {
      if i < k - 1 {
        assert order[i] != order[k - 1] && order[i + 1] != order[k + 1];
      } else if i >= k {
        assert order[i + 1] != order[k - 1] && order[i + 2] != order[k + 1];
      }
    }
    forall i, j | 0 <= i < j < |o'|
      ensures o'[i] != o'[j]
    {
    }
  }

  /** Dropping position `k` of the chain drops unit `k` of the view. */
  lemma ViewRemove(data: string, order: seq<nat>, k: nat)
    requires k < |order| && forall i :: 0 <= i < |order| ==> order[i] < |data|
    ensures View(data, order[..k] + order[k + 1..]) == View(data, order)[..k] + View(data, order)[k + 1..]
  {
  }

  /** The units of the nodes `order`, in that order. */
  function View(data: string, order: seq<nat>): (s: string)
    requires forall i :: 0 <= i < |order| ==> order[i] < |data|
    ensures |s| == |order| && forall i :: 0 <= i < |order| ==> s[i] == data[order[i]]
  {
    seq(|order|, i requires 0 <= i < |order| => data[order[i]])
  }

  /** In a valid list, the node after position `k` is found by its link. */
  lemma NextAt(l: List, k: nat)
    requires l.Valid() && k + 1 < |l.order|
    ensures l.next[l.order[k]] == l.order[k + 1] && l.Contents()[k + 1] == l.data[l.order[k + 1]]
  {
  }

  /** `polymer.each_char { |c| list.append(c) }`. */
  method BuildList(polymer: string) returns (list: List)
    ensures fresh(list) && list.Valid() && list.Contents() == polymer
  {
    list := new List();
    for i := 0 to |polymer|
      invariant list.Valid() && list.Contents() == polymer[..i] && fresh(list)
    {
      var _ := list.Append(polymer[i]);
      assert polymer[..i + 1] == polymer[..i] + [polymer[i]];
    }
    assert polymer[..|polymer|] == polymer;
  }

  /** The two `remove` calls of a reaction: the node at position `k` and
      its successor. */
  method RemovePair(list: List, position: nat, second: nat, ghost k: nat)
    requires list.Valid() && k + 1 < |list.order| && list.order[k] == position && list.order[k + 1] == second
    modifies list
    ensures list.Valid() && list.data == old(list.data)
    ensures list.order == old(list.order)[..k] + old(list.order)[k + 2..]
    ensures list.Contents() == old(list.Contents())[..k] + old(list.Contents())[k + 2..]
  {
    ghost var c := list.Contents();
    ghost var o := list.order;
    var _ := list.Remove(position, k);
    ghost var c1 := list.Contents();
    ghost var o1 := list.order;
    assert o1[k] == second;
    var _ := list.Remove(second, k);
    assert list.order == o1[..k] + o1[k + 1..];
    assert list.Contents() == c1[..k] + c1[k + 1..];
    DropTwice(o, k);
    DropTwice(c, k);
  }

  /** What the walk knows at `position`, the node at place `k` of the
      chain: reacting the whole polymer equals reacting the units up to and
      including `k` as a stack against the rest. */
  ghost predicate WalkAt(c: string, k: nat, whole: string)
  {
    k < |c| && React([], whole) == React(c[..k + 1], c[k + 1..])
  }

  /** One turn of `trigger_reaction`'s loop, at the node in place `k`,
      which has a successor. */
  method WalkStep(list: List, position: nat, ghost k: nat, ghost whole: string)
    returns (position': int, ghost k': nat)
    requires list.Valid() && k + 1 < |list.order| && list.order[k] == position
    requires WalkAt(list.Contents(), k, whole)
    modifies list
    ensures list.Valid()
    ensures position' == Nil ==> list.order == [] && React([], whole) == []
    ensures position' != Nil ==> k' < |list.order| && position' == list.order[k'] && WalkAt(list.Contents(), k', whole)
    ensures 3 * |list.order| - (if position' == Nil then 0 else k') < 3 * |old(list.order)| - k
  {
    NextAt(list, k);
    var c1 := list.data[position];
    var second := list.next[position];
    var c2 := list.data[second];
    ghost var c := list.Contents();
    assert c1 == c[k] && c2 == c[k + 1];
    if Reacts(c1, c2) {
      position', k' := ReactAt(list, position, second, k, whole);
    } else {
      ReactKeep(c, k);
      position' := second;
      k' := k + 1;
    }
  }

  /** The node the walk moves to once the pair at places `k`, `k + 1`
      reacts: the predecessor, or at the head the node after the pair. */
  lemma AfterPair(list: List, k: nat)
    requires list.Valid() && k + 1 < |list.order|
    ensures list.order[k] == list.head <==> k == 0
    ensures k == 0 ==> list.next[list.order[1]] == if 2 < |list.order| then list.order[2] else Nil
    ensures k > 0 ==> list.prev[list.order[k]] == list.order[k - 1]
  {
    var o := list.order;
    if k == 0 && 2 < |o| {
      assert list.next[o[1]] == o[2];
    }
    if k > 0 {
      assert list.prev[o[k]] == o[k - 1];
    }
  }

  /** The reacting case of the walk: the pair leaves the list. */
  method ReactAt(list: List, position: nat, second: nat, ghost k: nat, ghost whole: string)
    returns (position': int, ghost k': nat)
    requires list.Valid() && k + 1 < |list.order| && list.order[k] == position && list.order[k + 1] == second
    requires WalkAt(list.Contents(), k, whole) && Reacts(list.Contents()[k], list.Contents()[k + 1])
    modifies list
    ensures list.Valid()
    ensures position' == Nil ==> list.order == [] && React([], whole) == []
    ensures position' != Nil ==> k' < |list.order| && position' == list.order[k'] && WalkAt(list.Contents(), k', whole)
    ensures 3 * |list.order| - (if position' == Nil then 0 else k') < 3 * |old(list.order)| - k
  {
    ghost var c := list.Contents();
    AfterPair(list, k);
    var atHead := position == list.head;
    position' := if atHead then list.next[second] else list.prev[position];
    RemovePair(list, position, second, k);
    ReactStep(c, k);
    if atHead {
      k' := 0;
      if position' != Nil {
        ReactFromEmpty(c[2..]);
        assert list.Contents() == c[2..];
      } else {
        assert c[..0] == [] && c[2..] == [];
      }
    } else {
      k' := k - 1;
      assert list.Contents()[..k' + 1] == c[..k] && list.Contents()[k' + 1..] == c[k + 2..];
    }
  }

  /** Dropping place `k` twice drops places `k` and `k + 1`. */
  lemma DropTwice<T>(s: seq<T>, k: nat)
    requires k + 1 < |s|
    ensures (s[..k] + s[k + 1..])[..k] + (s[..k] + s[k + 1..])[k + 1..] == s[..k] + s[k + 2..]
  {
    var s1 := s[..k] + s[k + 1..];
    assert s1[..k] == s[..k];
    assert s1[k + 1..] == s[k + 2..];
  }

  /** `trigger_reaction`: the list walk. At a node that reacts with its
      successor both vanish and the walk steps back one node (or, at the
      head, goes on after the pair); otherwise it steps forward. The
      result is the reference reaction of the whole polymer. */
  method TriggerReaction(polymer: string) returns (reacted: string)
    ensures reacted == React([], polymer)
  {
    var list := BuildList(polymer);
    var position := list.head;
    ghost var k: nat := 0;
    if position != Nil {
      ReactFromEmpty(polymer);
    }
    while position != Nil && position != list.tail
      invariant list.Valid()
      invariant position == Nil ==> list.order == [] && React([], polymer) == []
      invariant position != Nil ==> k < |list.order| && position == list.order[k] && WalkAt(list.Contents(), k, polymer)
      decreases 3 * |list.order| - (if position == Nil then 0 else k)
    {
      position, k := WalkStep(list, position, k, polymer);
    }
    if position != Nil {
      assert k == |list.order| - 1;
      assert list.Contents()[..k + 1] == list.Contents();
    }
    reacted := list.EachElement();
  }

  /** The reaction starts with the first unit on the stack. */
  lemma ReactFromEmpty(s: string)
    requires s != []
    ensures React([], s) == React(s[..1], s[1..])
  {
    assert [] + [s[0]] == s[..1];
  }

  /** A unit that does not react with its predecessor moves onto the
      stack. */
  lemma ReactKeep(c: string, k: nat)
    requires k + 1 < |c| && !Reacts(c[k], c[k + 1])
    ensures React(c[..k + 1], c[k + 1..]) == React(c[..k + 2], c[k + 2..])
  {
    assert c[..k + 1] + [c[k + 1]] == c[..k + 2];
    assert c[k + 1..][1..] == c[k + 2..];
  }

  /** The reaction of neighbours `k`, `k + 1` in the walk's view: the stack
      loses its top and the rest its first unit. */
  lemma ReactStep(c: string, k: nat)
    requires k + 1 < |c| && Reacts(c[k], c[k + 1])
    ensures React(c[..k + 1], c[k + 1..]) == React(c[..k], c[k + 2..])
    ensures (c[..k] + c[k + 2..])[..k] == c[..k] && (c[..k] + c[k + 2..])[k..] == c[k + 2..]
  {
    assert c[..k + 1][..k] == c[..k];
    assert c[k + 1..][1..] == c[k + 2..];
  }

  // ---------------------------------------------------------------------
  // Removing a unit type and the optimum.

  /** `reduce_polymer`: the units not in `units`, in order. */
  function ReducePolymer(polymer: string, units: seq<char>): (r: string)
    ensures |r| <= |polymer|
    ensures forall c :: c in r <==> c in polymer && c !in units
  {
    if polymer == [] then []
    else if polymer[|polymer| - 1] in units then ReducePolymer(polymer[..|polymer| - 1], units)
    else ReducePolymer(polymer[..|polymer| - 1], units) + [polymer[|polymer| - 1]]
  }

  /** Every unit keeps its count unless it is one of the dropped types. */
  lemma {:induction false} ReduceCounts(polymer: string, units: seq<char>, c: char)
    ensures Occurrences(ReducePolymer(polymer, units), c) == if c in units then 0 else Occurrences(polymer, c)
  {
    if polymer != [] {
      var init := polymer[..|polymer| - 1];
      var last := polymer[|polymer| - 1];
      ReduceCounts(init, units, c);
      assert init + [last] == polymer;
      OccurrencesSnoc(init, last, c);
      if last !in units {
        OccurrencesSnoc(ReducePolymer(init, units), last, c);
      }
    }
  }

  /** The polymer without letter `i` in either case, reacted. */
  function Candidate(polymer: string, i: nat): string
    requires i < 26
  {
    React([], ReducePolymer(polymer, [Lower(i), Upper(i)]))
  }

  /** One candidate of `optimal_polymer`: the polymer without letter `i`
      in either case, reacted. */
  method ReactWithout(polymer: string, i: nat) returns (reacted: string)
    requires i < 26
    ensures reacted == Candidate(polymer, i)
  {
    reacted := TriggerReaction(ReducePolymer(polymer, [Lower(i), Upper(i)]));
  }

  /** `optimal_polymer`: over the 26 letters, drop both cases of the letter,
      react, and keep the first shortest result. */
  method OptimalPolymer(polymer: string) returns (best: string)
    ensures exists i :: 0 <= i < 26 && best == Candidate(polymer, i)
    ensures forall i :: 0 <= i < 26 ==> |best| <= |Candidate(polymer, i)|
  {
    best := ReactWithout(polymer, 0);
    ghost var at: nat := 0;
    for i := 1 to 26
      invariant at < i && best == Candidate(polymer, at)
      invariant forall j :: 0 <= j < i ==> |best| <= |Candidate(polymer, j)|
    {
      var reacted := ReactWithout(polymer, i);
      if |reacted| < |best| {
        best := reacted;
        at := i;
      }
    }
  }

  // ---------------------------------------------------------------------
  // The examples listed in the script.

  lemma ExamplesShort()
    ensures React([], "aA") == ""
    ensures React([], "abBA") == ""
    ensures React([], "abAB") == "abAB"
  {
  }

  lemma ExampleNoReaction()
    ensures React([], "aabAAB") == "aabAAB"
  {
  }

  lemma ExampleLong()
    ensures React([], "dabAcCaCBAcCcaDA") == "dabCBAcaDA"
  {
    ExampleLongPart0();
    ExampleLongPart1();
    ExampleLongPart2();
    ExampleLongPart2b();
    ExampleLongPart3();
    ExampleLongPart4();
  }

  lemma ExampleLongPart0()
    ensures React("", "dabAcCaCBAcCcaDA") == React("da", "bAcCaCBAcCcaDA")
  {
    ReactPush("", "d", 'd', "dabAcCaCBAcCcaDA", "abAcCaCBAcCcaDA");
    ReactPush("d", "da", 'a', "abAcCaCBAcCcaDA", "bAcCaCBAcCcaDA");
  }

  lemma ExampleLongPart1()
    ensures React("da", "bAcCaCBAcCcaDA") == React("dabA", "cCaCBAcCcaDA")
  {
    ReactPush("da", "dab", 'b', "bAcCaCBAcCcaDA", "AcCaCBAcCcaDA");
    ReactPush("dab", "dabA", 'A', "AcCaCBAcCcaDA", "cCaCBAcCcaDA");
  }

  lemma ExampleLongPart2()
    ensures React("dabA", "cCaCBAcCcaDA") == React("dabA", "aCBAcCcaDA")
  {
    ReactPush("dabA", "dabAc", 'c', "cCaCBAcCcaDA", "CaCBAcCcaDA");
    ReactPop("dabAc", "dabA", 'c', "CaCBAcCcaDA", "aCBAcCcaDA");
  }

  lemma ExampleLongPart2b()
    ensures React("dabA", "aCBAcCcaDA") == React("dabC", "BAcCcaDA")
  {
    ReactPop("dabA", "dab", 'A', "aCBAcCcaDA", "CBAcCcaDA");
    ReactPush("dab", "dabC", 'C', "CBAcCcaDA", "BAcCcaDA");
  }

  lemma ExampleLongPart3()
    ensures React("dabC", "BAcCcaDA") == React("dabCBA", "caDA")
  {
    ReactPush("dabC", "dabCB", 'B', "BAcCcaDA", "AcCcaDA");
    ReactPush("dabCB", "dabCBA", 'A', "AcCcaDA", "cCcaDA");
    ReactPush("dabCBA", "dabCBAc", 'c', "cCcaDA", "CcaDA");
    ReactPop("dabCBAc", "dabCBA", 'c', "CcaDA", "caDA");
  }

  lemma ExampleLongPart4()
    ensures React("dabCBA", "caDA") == React("dabCBAcaDA", "")
  {
    ReactPush("dabCBA", "dabCBAc", 'c', "caDA", "aDA");
    ReactPush("dabCBAc", "dabCBAca", 'a', "aDA", "DA");
    ReactPush("dabCBAca", "dabCBAcaD", 'D', "DA", "A");
    ReactPush("dabCBAcaD", "dabCBAcaDA", 'A', "A", "");
  }

  /** One push of the reaction, stated on the pieces. */
  lemma ReactPush(stack: string, stack': string, c: char, rest: string, rest': string)
    requires stack' == stack + [c] && rest != [] && rest[0] == c && rest' == rest[1..]
    requires stack == [] || !Reacts(stack[|stack| - 1], c)
    ensures React(stack, rest) == React(stack', rest')
  {
  }

  /** One cancellation of the reaction, stated on the pieces. */
  lemma ReactPop(stack: string, stack': string, top: char, rest: string, rest': string)
    requires stack == stack' + [top] && rest != [] && rest' == rest[1..] && Reacts(top, rest[0])
    ensures React(stack, rest) == React(stack', rest')
  {
    assert stack[..|stack| - 1] == stack';
  }
}
