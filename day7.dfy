/** Step ordering: steps become available once all their prerequisites are
    done, and the next step is always the alphabetically first available
    one. Each step is represented by its name (a letter); the instruction
    set keeps, per step, the list of its prerequisites and whether it is
    done. */
module StepOrder {
  import opened Wrappers

  // ---------------------------------------------------------------------
  // Availability, stated on values.

  /** `prerequisites_completed?` against the set `done` of finished steps. */
  predicate PrerequisitesIn(prereqs: map<char, seq<char>>, name: char, done: set<char>)
    requires name in prereqs
  {
    forall p :: p in prereqs[name] ==> p in done
  }

  /** A step that `next_step` may choose: not done, prerequisites done. */
  predicate Available(prereqs: map<char, seq<char>>, name: char, done: set<char>)
  {
    name in prereqs && name !in done && PrerequisitesIn(prereqs, name, done)
  }

  /** `name` is what `next_step` must return once `done` are finished: the
      smallest available step. */
  predicate IsNext(prereqs: map<char, seq<char>>, name: char, done: set<char>)
  {
    Available(prereqs, name, done) &&
    forall s :: Available(prereqs, s, done) ==> name <= s
  }

  function Elems(s: seq<char>): set<char>
  {
    set x | x in s
  }

  /** `order` is what the loop of `order_of_steps` appends starting from
      `start`: each entry is the next step once `start` and the entries
      before it are done. */
  predicate Greedy(prereqs: map<char, seq<char>>, order: seq<char>, start: set<char>)
  {
    forall i :: 0 <= i < |order| ==> IsNext(prereqs, order[i], start + Elems(order[..i]))
  }

  /** Some step is left but every step left waits for another step left:
      `next_step` finds nothing while the loop still runs. */
  predicate Stuck(prereqs: map<char, seq<char>>, done: set<char>)
  {
    (exists s :: s in prereqs && s !in done) &&
    forall s :: s in prereqs && s !in done ==> !PrerequisitesIn(prereqs, s, done)
  }

  /** `rank` strictly increases along every prerequisite link: the steps
      form no cycle. */
  predicate Ranked(prereqs: map<char, seq<char>>, rank: map<char, nat>)
  {
    (forall s :: s in prereqs ==> s in rank) &&
    forall s, p :: s in prereqs && p in prereqs[s] ==> p in prereqs && p in rank && rank[p] < rank[s]
  }

  /** Without a cycle the loop can never get stuck, so `order_of_steps`
      only fails on a cyclic set of instructions. */
  lemma AcyclicNeverStuck(prereqs: map<char, seq<char>>, rank: map<char, nat>, done: set<char>)
    requires Ranked(prereqs, rank)
    ensures !Stuck(prereqs, done)
  {
    if Stuck(prereqs, done) {
      var s :| s in prereqs && s !in done;
      StuckDescends(prereqs, rank, done, s);
    }
  }

  lemma {:induction false} StuckDescends(prereqs: map<char, seq<char>>, rank: map<char, nat>, done: set<char>, s: char)
    requires Ranked(prereqs, rank) && Stuck(prereqs, done) && s in prereqs && s !in done
    ensures false
    decreases rank[s]
  {
    assert !PrerequisitesIn(prereqs, s, done);
    var p :| p in prereqs[s] && p !in done;
    assert p in prereqs;
    StuckDescends(prereqs, rank, done, p);
  }

  /** A greedy order lists every step after all of its prerequisites, and
      never repeats a step. */
  lemma GreedyIsTopological(prereqs: map<char, seq<char>>, order: seq<char>, start: set<char>, i: nat, p: char)
    requires Greedy(prereqs, order, start) && i < |order| && p in prereqs[order[i]]
    ensures p in start || exists j :: 0 <= j < i && order[j] == p
  {
    assert IsNext(prereqs, order[i], start + Elems(order[..i]));
    assert p in start + Elems(order[..i]);
  }

  /** The loop's step: appending the next step keeps the order greedy. */
  lemma GreedySnoc(prereqs: map<char, seq<char>>, order: seq<char>, start: set<char>, name: char)
    requires Greedy(prereqs, order, start) && IsNext(prereqs, name, start + Elems(order))
    ensures Greedy(prereqs, order + [name], start)
    ensures Elems(order + [name]) == Elems(order) + {name}
  {
    var o := order + [name];
    assert o[..|order|] == order;
    forall i | 0 <= i < |o|
      ensures IsNext(prereqs, o[i], start + Elems(o[..i]))
    {
      if i < |order| {
        assert o[..i] == order[..i];
      }
    }
  }

  lemma GreedyDistinct(prereqs: map<char, seq<char>>, order: seq<char>, start: set<char>)
    requires Greedy(prereqs, order, start)
    ensures Distinct(order) && forall i :: 0 <= i < |order| ==> order[i] !in start
  {
    forall i, j | 0 <= i < j < |order|
      ensures order[i] != order[j]
    {
      assert IsNext(prereqs, order[j], start + Elems(order[..j]));
      assert order[i] in Elems(order[..j]) by {
        assert order[..j][i] == order[i];
      }
    }
    forall i | 0 <= i < |order|
      ensures order[i] !in start
    {
      assert IsNext(prereqs, order[i], start + Elems(order[..i]));
    }
  }

  // ---------------------------------------------------------------------
  // The instruction set.

  /** `Instructions`: `steps` are the step names in the order the hash
      created them, `prerequisites` each step's prerequisite names in the
      order they were added, `done` the steps marked done. */
  class Instructions {
    var steps: seq<char>
    var prerequisites: map<char, seq<char>>
    var done: set<char>

    ghost predicate Valid()
      reads this
    {
      Distinct(steps) &&
      (forall s :: s in prerequisites <==> s in steps) &&
      (forall s, p :: s in prerequisites && p in prerequisites[s] ==> p in prerequisites) &&
      (forall s :: s in done ==> s in prerequisites)
    }

    constructor ()
      ensures Valid() && steps == [] && prerequisites == map[] && done == {}
    {
      steps, prerequisites, done := [], map[], {};
    }

    /** `add`: looking up `before` and then `after` creates each missing
        step (not done, no prerequisites); then `before` becomes the last
        prerequisite of `after`. */
    method Add(before: char, after: char)
      requires Valid()
      modifies this
      ensures Valid() && done == old(done)
      ensures steps == old(steps) + (if before in old(prerequisites) then [] else [before]) +
        (if after in old(prerequisites) || after == before then [] else [after])
      ensures after in old(prerequisites) ==> prerequisites[after] == old(prerequisites[after]) + [before]
      ensures after !in old(prerequisites) ==> prerequisites[after] == [before]
      ensures forall s :: s in prerequisites && s != after ==>
        s in old(prerequisites) ==> prerequisites[s] == old(prerequisites[s])
      ensures before in prerequisites && (before != after && before !in old(prerequisites) ==> prerequisites[before] == [])
    {
      if before !in prerequisites {
        steps := steps + [before];
        prerequisites := prerequisites[before := []];
      }
      if after !in prerequisites {
        steps := steps + [after];
        prerequisites := prerequisites[after := []];
      }
      prerequisites := prerequisites[after := prerequisites[after] + [before]];
    }

    /** `Step#done!`: idempotent, and no step is ever un-done. */
    method MarkDone(name: char)
      requires Valid() && name in prerequisites
      modifies this
      ensures Valid() && steps == old(steps) && prerequisites == old(prerequisites)
      ensures done == old(done) + {name}
    {
      done := done + {name};
    }

    predicate AllDone()
      reads this
    {
      forall i :: 0 <= i < |steps| ==> steps[i] in done
    }

    /** `next_step`: the smallest available step, or `None`. */
    function NextStep(): (r: Option<char>)
      requires Valid()
      reads this
      ensures r.Some? ==> IsNext(prerequisites, r.value, done)
      ensures r.None? ==> forall s :: !Available(prerequisites, s, done)
    {
      SmallestAmong(prerequisites, steps, done)
    }

    /** `order_of_steps`: until every step is done, mark the next step done
        and append it. If no step is available while some remain, the
        lookup yields `nil` and the call on it raises. */
    method OrderOfSteps() returns (r: Result<string>)
      requires Valid()
      modifies this
      ensures Valid() && steps == old(steps) && prerequisites == old(prerequisites) && old(done) <= done
      ensures r.Ok? ==> (AllDone() && Greedy(prerequisites, r.value, old(done)) &&
        done == old(done) + Elems(r.value))
      ensures r.Fail? ==> Stuck(prerequisites, done)
    {
      var order := "";
      while !AllDone()
        invariant Valid() && steps == old(steps) && prerequisites == old(prerequisites)
        invariant done == old(done) + Elems(order)
        invariant Greedy(prerequisites, order, old(done))
        decreases set s | s in steps && s !in done
      {
        var next := NextStep();
        if next.None? {
          var i :| 0 <= i < |steps| && steps[i] !in done;
          assert steps[i] in prerequisites;
          assert forall s :: s in prerequisites && s !in done ==> !PrerequisitesIn(prerequisites, s, done) by {
            forall s | s in prerequisites && s !in done
              ensures !PrerequisitesIn(prerequisites, s, done)
            {
              assert !Available(prerequisites, s, done);
            }
          }
          return Fail("NoMethodError");
        }
        var name := next.value;
        ghost var left := set s | s in steps && s !in done;
        assert name in left;
        GreedySnoc(prerequisites, order, old(done), name);
        MarkDone(name);
        order := order + [name];
        assert (set s | s in steps && s !in done) == left - {name};
      }
      r := Ok(order);
    }
  }

  /** The scan behind `next_step`: the smallest available name of `names`. */
  function SmallestAmong(prereqs: map<char, seq<char>>, names: seq<char>, done: set<char>): (r: Option<char>)
    requires forall i :: 0 <= i < |names| ==> names[i] in prereqs
    ensures r.Some? ==> r.value in names && Available(prereqs, r.value, done)
    ensures r.Some? ==> forall s :: s in names && Available(prereqs, s, done) ==> r.value <= s
    ensures r.None? ==> forall s :: s in names ==> !Available(prereqs, s, done)
  {
    if names == [] then None
    else
      var rest := SmallestAmong(prereqs, names[1..], done);
      if !Available(prereqs, names[0], done) then rest
      else if rest.Some? && rest.value < names[0] then rest
      else Some(names[0])
  }
}
