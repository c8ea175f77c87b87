/**
  The immune system battle of day 24: groups of units of two armies pick
  targets, then attack in initiative order, until one army is gone.
*/
module ImmuneSimulator {
  import opened Wrappers

  datatype Army = ImmuneSystem | Infection

  /** The fields of a `Group` struct at one moment. */
  datatype GroupState = GroupState(
    army: Army,
    count: nat,
    units: nat,
    hitPoints: nat,
    immunities: seq<string>,
    weaknesses: seq<string>,
    attackDamage: nat,
    attackType: string,
    initiative: nat)

  /** `effective_power`. */
  function Power(g: GroupState): nat
  {
    g.units * g.attackDamage
  }

  /** `damage`: nothing to an immune target, double to a weak one. */
  function Damage(attacker: GroupState, target: GroupState): nat
  {
    if attacker.attackType in target.immunities then 0
    else if attacker.attackType in target.weaknesses then 2 * Power(attacker)
    else Power(attacker)
  }

  /** The damage is zero exactly when the target is immune or the attacker
      has no power; immunity wins over weakness, and a weakness doubles. */
  lemma DamageCases(attacker: GroupState, target: GroupState)
    ensures Damage(attacker, target) == 0
      <==> attacker.attackType in target.immunities || Power(attacker) == 0
    ensures attacker.attackType in target.immunities ==> Damage(attacker, target) == 0
    ensures attacker.attackType !in target.immunities ==>
      Damage(attacker, target) == (if attacker.attackType in target.weaknesses then 2 else 1) * Power(attacker)
  {
  }

  function Min(a: int, b: int): int
  {
    if a <= b then a else b
  }

  /** `take_damage`: the new state and the number of units lost. */
  function Hit(g: GroupState, damage: nat): (GroupState, nat)
    requires g.hitPoints > 0
  {
    var lost := Min(damage / g.hitPoints, g.units);
    (g.(units := g.units - lost), lost)
  }

  /** Only whole units die: the loss is the largest number of units, at
      most all of them, whose hit points the damage covers; the rest of
      the group is unchanged. */
  lemma HitKillsWholeUnits(g: GroupState, damage: nat)
    requires g.hitPoints > 0
    ensures var (h, lost) := Hit(g, damage);
      && lost <= g.units
      && lost * g.hitPoints <= damage
      && (lost == g.units || damage < (lost + 1) * g.hitPoints)
      && h == g.(units := g.units - lost)
  {
    var q := damage / g.hitPoints;
    assert q * g.hitPoints <= damage < (q + 1) * g.hitPoints;
    var lost := Hit(g, damage).1;
    if lost < q {
      assert lost * g.hitPoints <= q * g.hitPoints by {
        MultiplyMonotone(lost, q, g.hitPoints);
      }
    }
  }

  lemma MultiplyMonotone(a: nat, b: nat, c: nat)
    requires a <= b
    ensures a * c <= b * c
  {
  }

  // ---------------------------------------------------------------------
  // `sort_by` with a descending key of two numbers.

  predicate Indices(order: seq<int>, n: nat)
  {
    forall k :: 0 <= k < |order| ==> 0 <= order[k] < n
  }

  /** Key `x` sorts no later than key `y` in a descending `sort_by`. */
  predicate NotBelow(x: (int, int), y: (int, int))
  {
    x.0 > y.0 || (x.0 == y.0 && x.1 >= y.1)
  }

  predicate SortedDesc(keys: seq<(int, int)>, order: seq<int>)
    requires Indices(order, |keys|)
  {
    forall a, b :: 0 <= a < b < |order| ==> NotBelow(keys[order[a]], keys[order[b]])
  }

  /** Index `i` placed before the first index of `order` whose key is not
      above its own. */
  function Insert(keys: seq<(int, int)>, order: seq<int>, i: nat): (r: seq<int>)
    requires i < |keys| && Indices(order, |keys|)
    ensures Indices(r, |keys|) && |r| == |order| + 1
    ensures r != [] && (r[0] == i || (order != [] && r[0] == order[0]))
  {
    if order == [] then [i]
    else if NotBelow(keys[i], keys[order[0]]) then [i] + order
    else
      assert order == [order[0]] + order[1..];
      [order[0]] + Insert(keys, order[1..], i)
  }

  /** Insertion adds `i` once and keeps every other index. */
  lemma {:induction false} InsertCounts(keys: seq<(int, int)>, order: seq<int>, i: nat, m: int)
    requires i < |keys| && Indices(order, |keys|)
    ensures Occurrences(Insert(keys, order, i), m) == Occurrences(order, m) + (if m == i then 1 else 0)
  {
    if order != [] && !NotBelow(keys[i], keys[order[0]]) {
      InsertCounts(keys, order[1..], i, m);
      assert ([order[0]] + Insert(keys, order[1..], i))[1..] == Insert(keys, order[1..], i);
    } else if order != [] {
      assert ([i] + order)[1..] == order;
    }
  }

  /** Insertion keeps the order sorted. */
  lemma {:induction false} InsertSorted(keys: seq<(int, int)>, order: seq<int>, i: nat)
    requires i < |keys| && Indices(order, |keys|) && SortedDesc(keys, order)
    ensures SortedDesc(keys, Insert(keys, order, i))
  {
    if order != [] && !NotBelow(keys[i], keys[order[0]]) {
      var rest := Insert(keys, order[1..], i);
      InsertSorted(keys, order[1..], i);
      assert NotBelow(keys[order[0]], keys[rest[0]]);
      var r := [order[0]] + rest;
      assert Insert(keys, order, i) == r;
      forall a, b | 0 <= a < b < |r|
        ensures NotBelow(keys[r[a]], keys[r[b]])
      {
        if a == 0 && b > 1 {
          assert NotBelow(keys[rest[0]], keys[rest[b - 1]]);
        }
      }
    }
  }

  /** `sort_by` on a descending key: the indices `0 .. n-1` by key. */
  function SortDesc(keys: seq<(int, int)>, n: nat): (r: seq<int>)
    requires n <= |keys|
    ensures Indices(r, |keys|) && |r| == n
  {
    if n == 0 then [] else Insert(keys, SortDesc(keys, n - 1), n - 1)
  }

  /** The result is sorted by descending key. */
  lemma {:induction false} SortDescSorted(keys: seq<(int, int)>, n: nat)
    requires n <= |keys|
    ensures SortedDesc(keys, SortDesc(keys, n))
  {
    if n > 0 {
      SortDescSorted(keys, n - 1);
      InsertSorted(keys, SortDesc(keys, n - 1), n - 1);
    }
  }

  /** The result lists each index below `n` exactly once. */
  lemma {:induction false} SortDescPermutes(keys: seq<(int, int)>, n: nat, m: int)
    requires n <= |keys|
    ensures Occurrences(SortDesc(keys, n), m) == if 0 <= m < n then 1 else 0
  {
    if n > 0 {
      SortDescPermutes(keys, n - 1, m);
      InsertCounts(keys, SortDesc(keys, n - 1), n - 1, m);
    }
  }

  // ---------------------------------------------------------------------
  // Target selection.

  /** The key of the attackers' order: effective power, then initiative. */
  function PowerKeys(vs: seq<GroupState>): (r: seq<(int, int)>)
    ensures |r| == |vs|
  {
    if vs == [] then []
    else PowerKeys(vs[..|vs| - 1]) + [(Power(vs[|vs| - 1]), vs[|vs| - 1].initiative)]
  }

  lemma {:induction false} PowerKeysAt(vs: seq<GroupState>)
    ensures forall i :: 0 <= i < |vs| ==> PowerKeys(vs)[i] == (Power(vs[i]), vs[i].initiative)
  {
    if vs != [] {
      PowerKeysAt(vs[..|vs| - 1]);
    }
  }

  /** The order in which the groups choose their targets. */
  function ChoosingOrder(vs: seq<GroupState>): (r: seq<int>)
    ensures Indices(r, |vs|)
  {
    SortDesc(PowerKeys(vs), |vs|)
  }

  /** Attackers choose by decreasing effective power, then decreasing
      initiative, and every group chooses exactly once. */
  lemma ChoosingOrderSpec(vs: seq<GroupState>)
    ensures var order := ChoosingOrder(vs);
      && (forall a, b :: 0 <= a < b < |order| ==>
            Power(vs[order[a]]) > Power(vs[order[b]])
            || (Power(vs[order[a]]) == Power(vs[order[b]])
                && vs[order[a]].initiative >= vs[order[b]].initiative))
      && (forall m :: Occurrences(order, m) == if 0 <= m < |vs| then 1 else 0)
  {
    var keys := PowerKeys(vs);
    SortDescSorted(keys, |vs|);
    PowerKeysAt(vs);
    forall m
      ensures Occurrences(ChoosingOrder(vs), m) == if 0 <= m < |vs| then 1 else 0
    {
      SortDescPermutes(keys, |vs|, m);
    }
  }

  /** Group `t` may be chosen by group `a`: the other army, some damage. */
  predicate Eligible(vs: seq<GroupState>, a: nat, t: int)
    requires a < |vs|
  {
    0 <= t < |vs| && vs[t].army != vs[a].army && Damage(vs[a], vs[t]) > 0
  }

  /** As a target of `a`, `t` is strictly preferred to `u`: more damage,
      then more effective power, then more initiative. */
  predicate Preferred(vs: seq<GroupState>, a: nat, t: nat, u: nat)
    requires a < |vs| && t < |vs| && u < |vs|
  {
    var dt, du := Damage(vs[a], vs[t]), Damage(vs[a], vs[u]);
    dt > du
    || (dt == du && Power(vs[t]) > Power(vs[u]))
    || (dt == du && Power(vs[t]) == Power(vs[u]) && vs[t].initiative > vs[u].initiative)
  }

  /** The first of the eligible targets that no other one is preferred
      to: the head of the sorted, filtered candidate list. */
  function Best(vs: seq<GroupState>, a: nat, targets: seq<int>): (r: Option<int>)
    requires a < |vs|
    ensures r.Some? ==> r.value in targets && Eligible(vs, a, r.value)
  {
    if targets == [] then None
    else
      var rest := Best(vs, a, targets[1..]);
      var t := targets[0];
      if Eligible(vs, a, t) && (rest.None? || !Preferred(vs, a, rest.value, t)) then Some(t)
      else rest
  }

  /** No eligible candidate is preferred to the chosen one, and there is
      no choice only when no candidate is eligible. */
  lemma {:induction false} BestIsBest(vs: seq<GroupState>, a: nat, targets: seq<int>)
    requires a < |vs|
    ensures Best(vs, a, targets).None? ==> forall t :: t in targets ==> !Eligible(vs, a, t)
    ensures Best(vs, a, targets).Some? ==>
      forall u :: u in targets && Eligible(vs, a, u) ==> !Preferred(vs, a, u, Best(vs, a, targets).value)
  {
    if targets != [] {
      var rest := targets[1..];
      var t := targets[0];
      BestIsBest(vs, a, rest);
      assert forall u :: u in targets ==> u == t || u in rest;
      var r := Best(vs, a, rest);
      if Eligible(vs, a, t) && (r.None? || !Preferred(vs, a, r.value, t)) {
        forall u | u in rest && Eligible(vs, a, u)
          ensures !Preferred(vs, a, u, t)
        {
          NotPreferredTransitive(vs, a, t, r.value, u);
        }
      } else if Eligible(vs, a, t) {
        PreferredAsymmetric(vs, a, r.value, t);
      }
    }
  }

  lemma PreferredAsymmetric(vs: seq<GroupState>, a: nat, t: nat, u: nat)
    requires a < |vs| && t < |vs| && u < |vs| && Preferred(vs, a, t, u)
    ensures !Preferred(vs, a, u, t)
  {
  }

  /** Being at least as good a target is transitive. */
  lemma NotPreferredTransitive(vs: seq<GroupState>, a: nat, t: nat, u: nat, w: nat)
    requires a < |vs| && t < |vs| && u < |vs| && w < |vs|
    requires !Preferred(vs, a, u, t) && !Preferred(vs, a, w, u)
    ensures !Preferred(vs, a, w, t)
  {
  }

  /** `select_targets` for the first `n` attackers of `attackers`: the
      (attacker, target) pairs chosen and the targets still available. */
  function Select(vs: seq<GroupState>, attackers: seq<int>, n: nat): (seq<(int, int)>, seq<int>)
    requires n <= |attackers| && Indices(attackers, |vs|)
  {
    if n == 0 then ([], attackers)
    else
      var (pairs, targets) := Select(vs, attackers, n - 1);
      var a := attackers[n - 1];
      match Best(vs, a, targets)
      case None => (pairs, targets)
      case Some(t) => (pairs + [(a, t)], Delete(targets, t))
  }

  lemma DeleteIndices(targets: seq<int>, t: int, n: nat)
    requires Indices(targets, n)
    ensures Indices(Delete(targets, t), n)
  {
    var r := Delete(targets, t);
    forall k | 0 <= k < |r|
      ensures 0 <= r[k] < n
    {
      assert r[k] in targets;
    }
  }

  /** The pairs of a round of target selection. */
  function Selection(vs: seq<GroupState>): seq<(int, int)>
  {
    var order := ChoosingOrder(vs);
    Select(vs, order, |order|).0
  }

  /** Every attacker and target is one of `attackers`, every pair is
      eligible, and no target is chosen twice. */
  predicate SelectionSound(vs: seq<GroupState>, attackers: seq<int>, pairs: seq<(int, int)>, targets: seq<int>)
  {
    && Indices(targets, |vs|)
    && (forall t :: t in targets ==> t in attackers)
    && (forall k :: 0 <= k < |pairs| ==> pairs[k].0 in attackers && pairs[k].1 !in targets)
    && (forall k :: 0 <= k < |pairs| ==> 0 <= pairs[k].0 < |vs| && Eligible(vs, pairs[k].0, pairs[k].1))
    && (forall k, l :: 0 <= k < l < |pairs| ==> pairs[k].1 != pairs[l].1)
  }

  /** Target selection never picks a group of the attacker's own army or
      one it cannot damage, and picks each defender at most once. */
  lemma {:induction false} SelectSound(vs: seq<GroupState>, attackers: seq<int>, n: nat)
    requires n <= |attackers| && Indices(attackers, |vs|)
    ensures var (pairs, targets) := Select(vs, attackers, n);
      SelectionSound(vs, attackers, pairs, targets)
  {
    if n > 0 {
      SelectSound(vs, attackers, n - 1);
      var (pairs, targets) := Select(vs, attackers, n - 1);
      var a := attackers[n - 1];
      var best := Best(vs, a, targets);
      if best.Some? {
        assert a in attackers;
        SelectStep(vs, attackers, pairs, targets, a, best.value);
      }
    }
  }

  /** One choice keeps the selection sound. */
  lemma SelectStep(vs: seq<GroupState>, attackers: seq<int>, pairs: seq<(int, int)>, targets: seq<int>, a: nat, t: int)
    requires SelectionSound(vs, attackers, pairs, targets)
    requires a < |vs| && a in attackers && Best(vs, a, targets) == Some(t)
    ensures SelectionSound(vs, attackers, pairs + [(a, t)], Delete(targets, t))
  {
    var targets' := Delete(targets, t);
    var pairs' := pairs + [(a, t)];
    DeleteIndices(targets, t, |vs|);
    assert t in targets && Eligible(vs, a, t);
    forall k | 0 <= k < |pairs'|
      ensures pairs'[k].0 in attackers && pairs'[k].1 !in targets'
      ensures 0 <= pairs'[k].0 < |vs| && Eligible(vs, pairs'[k].0, pairs'[k].1)
    {
      if k < |pairs| {
        assert pairs'[k] == pairs[k];
      }
    }
    forall k, l | 0 <= k < l < |pairs'|
      ensures pairs'[k].1 != pairs'[l].1
    {
      assert pairs'[k] == pairs[k];
      if l < |pairs| {
        assert pairs'[l] == pairs[l];
      }
    }
  }

  /** With no eligible pair at all, nothing is selected. */
  lemma {:induction false} SelectNone(vs: seq<GroupState>, attackers: seq<int>, n: nat)
    requires n <= |attackers| && Indices(attackers, |vs|)
    requires forall a, t :: 0 <= a < |vs| ==> !Eligible(vs, a, t)
    ensures Select(vs, attackers, n).0 == []
  {
    if n > 0 {
      SelectNone(vs, attackers, n - 1);
    }
  }

  // ---------------------------------------------------------------------
  // Attacks.

  /** The key of the attack order: the attacker's initiative. */
  function InitiativeKeys(vs: seq<GroupState>, pairs: seq<(int, int)>): (r: seq<(int, int)>)
    requires forall k :: 0 <= k < |pairs| ==> 0 <= pairs[k].0 < |vs|
    ensures |r| == |pairs|
  {
    if pairs == [] then []
    else InitiativeKeys(vs, pairs[..|pairs| - 1]) + [(vs[pairs[|pairs| - 1].0].initiative, 0)]
  }

  lemma {:induction false} InitiativeKeysAt(vs: seq<GroupState>, pairs: seq<(int, int)>)
    requires forall k :: 0 <= k < |pairs| ==> 0 <= pairs[k].0 < |vs|
    ensures forall k :: 0 <= k < |pairs| ==> InitiativeKeys(vs, pairs)[k].0 == vs[pairs[k].0].initiative
  {
    if pairs != [] {
      InitiativeKeysAt(vs, pairs[..|pairs| - 1]);
    }
  }

  /** Every group has hit points, so `take_damage` can divide by them. */
  predicate Healthy(vs: seq<GroupState>)
  {
    forall i :: 0 <= i < |vs| ==> vs[i].hitPoints > 0
  }

  /** One attack at the current unit counts; an attacker without units
      skips its turn. */
  function Strike(vs: seq<GroupState>, pair: (int, int)): seq<GroupState>
    requires Healthy(vs) && 0 <= pair.0 < |vs| && 0 <= pair.1 < |vs|
  {
    var (a, t) := pair;
    if vs[a].units > 0 then vs[t := Hit(vs[t], Damage(vs[a], vs[t])).0] else vs
  }

  /** Only the units of groups change, and they never grow. */
  predicate Weakened(vs: seq<GroupState>, ws: seq<GroupState>)
  {
    && |ws| == |vs|
    && forall i :: 0 <= i < |vs| ==> ws[i] == vs[i].(units := ws[i].units) && ws[i].units <= vs[i].units
  }

  /** The first `n` attacks of `order` (indices into `pairs`). */
  function Strikes(vs: seq<GroupState>, pairs: seq<(int, int)>, order: seq<int>, n: nat): (r: seq<GroupState>)
    requires Healthy(vs) && n <= |order| && Indices(order, |pairs|)
    requires forall k :: 0 <= k < |pairs| ==> 0 <= pairs[k].0 < |vs| && 0 <= pairs[k].1 < |vs|
    ensures Healthy(r) && |r| == |vs|
  {
    if n == 0 then vs
    else
      var ws := Strikes(vs, pairs, order, n - 1);
      Strike(ws, pairs[order[n - 1]])
  }

  /** Attacks only take units away. */
  lemma {:induction false} StrikesWeaken(vs: seq<GroupState>, pairs: seq<(int, int)>, order: seq<int>, n: nat)
    requires Healthy(vs) && n <= |order| && Indices(order, |pairs|)
    requires forall k :: 0 <= k < |pairs| ==> 0 <= pairs[k].0 < |vs| && 0 <= pairs[k].1 < |vs|
    ensures Weakened(vs, Strikes(vs, pairs, order, n))
  {
    if n > 0 {
      StrikesWeaken(vs, pairs, order, n - 1);
      var ws := Strikes(vs, pairs, order, n - 1);
      var (a, t) := pairs[order[n - 1]];
      if ws[a].units > 0 {
        HitKillsWholeUnits(ws[t], Damage(ws[a], ws[t]));
      }
    }
  }

  /** The order of the attacks: decreasing initiative of the attacker. */
  function AttackOrder(vs: seq<GroupState>, pairs: seq<(int, int)>): (r: seq<int>)
    requires forall k :: 0 <= k < |pairs| ==> 0 <= pairs[k].0 < |vs|
    ensures Indices(r, |pairs|)
  {
    SortDesc(InitiativeKeys(vs, pairs), |pairs|)
  }

  /** Attacks run by decreasing initiative, each selected pair once. */
  lemma AttackOrderSpec(vs: seq<GroupState>, pairs: seq<(int, int)>)
    requires forall k :: 0 <= k < |pairs| ==> 0 <= pairs[k].0 < |vs|
    ensures var order := AttackOrder(vs, pairs);
      && (forall a, b :: 0 <= a < b < |order| ==>
            vs[pairs[order[a]].0].initiative >= vs[pairs[order[b]].0].initiative)
      && (forall m :: Occurrences(order, m) == if 0 <= m < |pairs| then 1 else 0)
  {
    var keys := InitiativeKeys(vs, pairs);
    SortDescSorted(keys, |pairs|);
    InitiativeKeysAt(vs, pairs);
    forall m
      ensures Occurrences(AttackOrder(vs, pairs), m) == if 0 <= m < |pairs| then 1 else 0
    {
      SortDescPermutes(keys, |pairs|, m);
    }
  }

  // ---------------------------------------------------------------------
  // Rounds and the battle.

  /** `select!` keeping the groups with units. */
  function Alive(vs: seq<GroupState>): seq<GroupState>
  {
    if vs == [] then []
    else Alive(vs[..|vs| - 1]) + (if vs[|vs| - 1].units > 0 then [vs[|vs| - 1]] else [])
  }

  /** The groups kept are exactly those with units. */
  lemma {:induction false} AliveMembers(vs: seq<GroupState>)
    ensures forall g :: g in Alive(vs) <==> g in vs && g.units > 0
  {
    if vs != [] {
      var init := vs[..|vs| - 1];
      AliveMembers(init);
      assert forall g :: g in vs <==> g in init || g == vs[|vs| - 1];
    }
  }

  /** The selected pairs, when each names two groups. */
  lemma SelectionIndices(vs: seq<GroupState>)
    ensures forall k :: 0 <= k < |Selection(vs)| ==>
      0 <= Selection(vs)[k].0 < |vs| && 0 <= Selection(vs)[k].1 < |vs|
  {
    var order := ChoosingOrder(vs);
    SelectSound(vs, order, |order|);
  }

  /** The states after the attacks of one round, before the dead go. */
  function Attacks(vs: seq<GroupState>): (r: seq<GroupState>)
    requires Healthy(vs)
  {
    var pairs := Selection(vs);
    SelectionIndices(vs);
    var order := AttackOrder(vs, pairs);
    Strikes(vs, pairs, order, |order|)
  }

  /** `fight` followed by the two `select!`s. */
  function Round(immune: seq<GroupState>, infection: seq<GroupState>): (seq<GroupState>, seq<GroupState>)
    requires Healthy(immune + infection)
  {
    var ws := Attacks(immune + infection);
    AttacksWeaken(immune + infection);
    (Alive(ws[..|immune|]), Alive(ws[|immune|..]))
  }

  lemma AttacksWeaken(vs: seq<GroupState>)
    requires Healthy(vs)
    ensures Weakened(vs, Attacks(vs))
  {
    var pairs := Selection(vs);
    SelectionIndices(vs);
    var order := AttackOrder(vs, pairs);
    StrikesWeaken(vs, pairs, order, |order|);
  }

  /** After a round every group left has units, and each was in its army
      before with no more units than now. */
  lemma RoundRemovesDead(immune: seq<GroupState>, infection: seq<GroupState>)
    requires Healthy(immune + infection)
    ensures var (i, f) := Round(immune, infection);
      && (forall g :: g in i ==> g.units > 0 && exists h :: h in immune && g == h.(units := g.units) && g.units <= h.units)
      && (forall g :: g in f ==> g.units > 0 && exists h :: h in infection && g == h.(units := g.units) && g.units <= h.units)
  {
    var vs := immune + infection;
    var ws := Attacks(vs);
    AttacksWeaken(vs);
    WeakenedSplit(immune, infection, ws);
    AliveWeakened(immune, ws[..|immune|]);
    AliveWeakened(infection, ws[|immune|..]);
  }

  /** A weakened list splits into weakened parts. */
  lemma WeakenedSplit(xs: seq<GroupState>, ys: seq<GroupState>, ws: seq<GroupState>)
    requires Weakened(xs + ys, ws)
    ensures Weakened(xs, ws[..|xs|]) && Weakened(ys, ws[|xs|..])
  {
    assert forall i :: 0 <= i < |xs| ==> (xs + ys)[i] == xs[i];
    assert forall i :: 0 <= i < |ys| ==> (xs + ys)[|xs| + i] == ys[i];
  }

  /** The survivors of a weakened list have units and come from it. */
  lemma AliveWeakened(xs: seq<GroupState>, ys: seq<GroupState>)
    requires Weakened(xs, ys)
    ensures forall g :: g in Alive(ys) ==>
      g.units > 0 && exists h :: h in xs && g == h.(units := g.units) && g.units <= h.units
  {
    AliveMembers(ys);
    forall g | g in Alive(ys)
      ensures exists h :: h in xs && g == h.(units := g.units) && g.units <= h.units
    {
      var i :| 0 <= i < |ys| && ys[i] == g;
      assert xs[i] in xs;
    }
  }

  lemma AliveHealthy(vs: seq<GroupState>)
    requires Healthy(vs)
    ensures Healthy(Alive(vs))
  {
    AliveMembers(vs);
    forall i | 0 <= i < |Alive(vs)|
      ensures Alive(vs)[i].hitPoints > 0
    {
      assert Alive(vs)[i] in vs;
    }
  }

  lemma RoundHealthy(immune: seq<GroupState>, infection: seq<GroupState>)
    requires Healthy(immune + infection)
    ensures Healthy(Round(immune, infection).0 + Round(immune, infection).1)
  {
    var ws := Attacks(immune + infection);
    AttacksWeaken(immune + infection);
    var (i, f) := Round(immune, infection);
    assert Healthy(ws[..|immune|]) && Healthy(ws[|immune|..]);
    AliveHealthy(ws[..|immune|]);
    AliveHealthy(ws[|immune|..]);
  }

  function SumUnits(vs: seq<GroupState>): nat
  {
    if vs == [] then 0 else SumUnits(vs[..|vs| - 1]) + vs[|vs| - 1].units
  }

  /** `run` for at most `fuel` rounds: the armies when one of them is
      empty, or `None` when the fuel runs out first. */
  function Battle(immune: seq<GroupState>, infection: seq<GroupState>, fuel: nat): (r: Option<(seq<GroupState>, seq<GroupState>)>)
    requires Healthy(immune + infection)
    ensures r.Some? ==> r.value.0 == [] || r.value.1 == []
    decreases fuel
  {
    if immune == [] || infection == [] then Some((immune, infection))
    else if fuel == 0 then None
    else
      var (i, f) := Round(immune, infection);
      RoundHealthy(immune, infection);
      Battle(i, f, fuel - 1)
  }

  /** A battle with both armies standing and fuel left plays one round. */
  lemma BattleStep(immune: seq<GroupState>, infection: seq<GroupState>, fuel: nat)
    requires Healthy(immune + infection) && immune != [] && infection != [] && fuel > 0
    ensures Healthy(Round(immune, infection).0 + Round(immune, infection).1)
    ensures Battle(immune, infection, fuel) == Battle(Round(immune, infection).0, Round(immune, infection).1, fuel - 1)
  {
    RoundHealthy(immune, infection);
  }

  /** A battle with an army gone or no fuel left is decided at once. */
  lemma BattleOver(immune: seq<GroupState>, infection: seq<GroupState>, fuel: nat)
    requires Healthy(immune + infection) && (immune == [] || infection == [] || fuel == 0)
    ensures Battle(immune, infection, fuel) == if immune != [] && infection != [] then None else Some((immune, infection))
  {
  }

  /** The result of `run`: the units of the surviving army. */
  function Remaining(immune: seq<GroupState>, infection: seq<GroupState>): nat
  {
    if immune != [] then SumUnits(immune) else SumUnits(infection)
  }

  /** A round that changes nothing repeats forever: `run` does not end. */
  lemma {:induction false} StalemateNeverEnds(immune: seq<GroupState>, infection: seq<GroupState>, fuel: nat)
    requires Healthy(immune + infection) && immune != [] && infection != []
    requires Round(immune, infection) == (immune, infection)
    ensures Battle(immune, infection, fuel) == None
  {
    if fuel > 0 {
      StalemateNeverEnds(immune, infection, fuel - 1);
    }
  }

  /** Two groups immune to each other's attack: a stalemate. */
  lemma StalemateExample()
    ensures var immune := [GroupState(ImmuneSystem, 1, 10, 5, ["fire"], [], 3, "cold", 1)];
      var infection := [GroupState(Infection, 1, 10, 5, ["cold"], [], 3, "fire", 2)];
      forall fuel: nat :: Battle(immune, infection, fuel) == None
  {
    var immune := [GroupState(ImmuneSystem, 1, 10, 5, ["fire"], [], 3, "cold", 1)];
    var infection := [GroupState(Infection, 1, 10, 5, ["cold"], [], 3, "fire", 2)];
    var vs := immune + infection;
    assert Selection(vs) == [] by {
      var order := ChoosingOrder(vs);
      forall a, t | 0 <= a < |vs|
        ensures !Eligible(vs, a, t)
      {
        assert a == 0 || a == 1;
      }
      SelectNone(vs, order, |order|);
    }
    assert Attacks(vs) == vs;
    assert vs[..1] == immune && vs[1..] == infection;
    assert Alive(immune) == immune && Alive(infection) == infection;
    forall fuel: nat
      ensures Battle(immune, infection, fuel) == None
    {
      StalemateNeverEnds(immune, infection, fuel);
    }
  }

  // ---------------------------------------------------------------------
  // Groups and the simulation as objects.

  class Group {
    const army: Army
    const count: nat
    var units: nat
    const hitPoints: nat
    const immunities: seq<string>
    const weaknesses: seq<string>
    const attackDamage: nat
    const attackType: string
    const initiative: nat

    constructor(g: GroupState)
      ensures State() == g
    {
      army, count, units, hitPoints := g.army, g.count, g.units, g.hitPoints;
      immunities, weaknesses := g.immunities, g.weaknesses;
      attackDamage, attackType, initiative := g.attackDamage, g.attackType, g.initiative;
    }

    function State(): GroupState
      reads this
    {
      GroupState(army, count, units, hitPoints, immunities, weaknesses, attackDamage, attackType, initiative)
    }

    /** `take_damage`: loses the whole units the damage covers, at most all
        of them, and returns how many. */
    method TakeDamage(damage: nat) returns (lost: nat)
      requires hitPoints > 0
      modifies this
      ensures (State(), lost) == Hit(old(State()), damage)
    {
      lost := Min(damage / hitPoints, units);
      units := units - lost;
    }
  }

  function States(gs: seq<Group>): (r: seq<GroupState>)
    reads gs
    ensures |r| == |gs|
  {
    if gs == [] then [] else States(gs[..|gs| - 1]) + [gs[|gs| - 1].State()]
  }

  /** Entry `i` is the state of group `i`. */
  lemma {:induction false} StatesAt(gs: seq<Group>)
    ensures forall i :: 0 <= i < |gs| ==> States(gs)[i] == gs[i].State()
  {
    if gs != [] {
      StatesAt(gs[..|gs| - 1]);
    }
  }

  lemma StatesAppend(gs: seq<Group>, hs: seq<Group>)
    ensures States(gs + hs) == States(gs) + States(hs)
  {
    StatesAt(gs + hs);
    StatesAt(gs);
    StatesAt(hs);
  }

  /** `select!` keeping the groups with units, as objects. */
  function AliveGroups(gs: seq<Group>): seq<Group>
    reads gs
  {
    if gs == [] then []
    else AliveGroups(gs[..|gs| - 1]) + (if gs[|gs| - 1].units > 0 then [gs[|gs| - 1]] else [])
  }

  /** The objects kept are those whose states `Alive` keeps. */
  lemma {:induction false} AliveGroupsStates(gs: seq<Group>)
    ensures States(AliveGroups(gs)) == Alive(States(gs))
    ensures forall g :: g in AliveGroups(gs) ==> g in gs
  {
    if gs != [] {
      var n := |gs| - 1;
      var init, last := gs[..n], gs[n];
      AliveGroupsStates(init);
      var vs := States(gs);
      assert vs == States(init) + [last.State()];
      assert vs[..n] == States(init) && vs[n] == last.State();
      var kept := AliveGroups(init);
      if last.units > 0 {
        assert AliveGroups(gs) == kept + [last];
        assert (kept + [last])[..|kept|] == kept;
        assert States(kept + [last]) == States(kept) + [last.State()];
        assert Alive(vs) == Alive(vs[..n]) + [vs[n]];
      } else {
        assert AliveGroups(gs) == kept;
        assert Alive(vs) == Alive(vs[..n]);
      }
    }
  }

  /** Filtering keeps a list of objects free of repeats. */
  lemma {:induction false} AliveGroupsDistinct(gs: seq<Group>)
    requires Distinct(gs)
    ensures Distinct(AliveGroups(gs))
  {
    if gs != [] {
      var n := |gs| - 1;
      var init, last := gs[..n], gs[n];
      assert Distinct(init);
      AliveGroupsDistinct(init);
      AliveGroupsStates(init);
      var kept := AliveGroups(init);
      if last.units > 0 {
        assert last !in init;
        assert AliveGroups(gs) == kept + [last];
      }
    }
  }

  /** Two lists together have no repeats exactly when neither has and
      they share nothing. */
  lemma DistinctAppend<T>(xs: seq<T>, ys: seq<T>)
    ensures Distinct(xs + ys) <==> Distinct(xs) && Distinct(ys) && forall x :: x in xs ==> x !in ys
  {
    assert forall i :: 0 <= i < |xs| ==> (xs + ys)[i] == xs[i];
    assert forall i :: 0 <= i < |ys| ==> (xs + ys)[|xs| + i] == ys[i];
    if Distinct(xs) && Distinct(ys) && forall x :: x in xs ==> x !in ys {
      forall i, j | 0 <= i < j < |xs + ys|
        ensures (xs + ys)[i] != (xs + ys)[j]
      {
        if i < |xs| && |xs| <= j {
          assert (xs + ys)[i] in xs && (xs + ys)[j] in ys;
        }
      }
    }
  }

  /** Filtering both armies keeps them free of repeats. */
  lemma AliveGroupsKeepDistinct(xs: seq<Group>, ys: seq<Group>)
    requires Distinct(xs + ys)
    ensures Distinct(AliveGroups(xs) + AliveGroups(ys))
  {
    DistinctAppend(xs, ys);
    AliveGroupsDistinct(xs);
    AliveGroupsDistinct(ys);
    AliveGroupsStates(xs);
    AliveGroupsStates(ys);
    DistinctAppend(AliveGroups(xs), AliveGroups(ys));
  }

  /** The keys of the attack order, read from the selected objects. */
  function AttackerKeys(selected: seq<(Group, Group)>): (r: seq<(int, int)>)
    ensures |r| == |selected|
  {
    if selected == [] then []
    else AttackerKeys(selected[..|selected| - 1]) + [(selected[|selected| - 1].0.initiative, 0)]
  }

  /** The selected objects are the groups of `all` at the selected
      indices. */
  ghost predicate Matches(all: seq<Group>, pairs: seq<(int, int)>, selected: seq<(Group, Group)>)
  {
    && |selected| == |pairs|
    && forall k :: 0 <= k < |pairs| ==>
      0 <= pairs[k].0 < |all| && 0 <= pairs[k].1 < |all| && selected[k] == (all[pairs[k].0], all[pairs[k].1])
  }

  lemma MatchesAppend(all: seq<Group>, pairs: seq<(int, int)>, selected: seq<(Group, Group)>, a: int, t: int)
    requires Matches(all, pairs, selected) && 0 <= a < |all| && 0 <= t < |all|
    ensures Matches(all, pairs + [(a, t)], selected + [(all[a], all[t])])
  {
  }

  /** The objects' keys are those of their states. */
  lemma {:induction false} AttackerKeysMatch(selected: seq<(Group, Group)>, all: seq<Group>, pairs: seq<(int, int)>)
    requires Matches(all, pairs, selected)
    ensures AttackerKeys(selected) == InitiativeKeys(States(all), pairs)
  {
    StatesAt(all);
    if pairs != [] {
      var n := |pairs| - 1;
      AttackerKeysMatch(selected[..n], all, pairs[..n]);
    }
  }

  class Simulation {
    var immuneSystem: seq<Group>
    var infection: seq<Group>
    /** The groups the simulation started with. */
    ghost var Repr: set<Group>

    /** Every group is its own object, one of those the simulation started
        with, and has hit points. */
    ghost predicate Valid()
      reads this
    {
      && Distinct(immuneSystem + infection)
      && (forall g :: g in immuneSystem ==> g in Repr)
      && (forall g :: g in infection ==> g in Repr)
      && forall g :: g in Repr ==> g.hitPoints > 0
    }

    /** The armies' states. */
    ghost function Armies(): (seq<GroupState>, seq<GroupState>)
      reads this, immuneSystem, infection
    {
      (States(immuneSystem), States(infection))
    }

    constructor(immuneSystem: seq<Group>, infection: seq<Group>)
      requires Distinct(immuneSystem + infection)
      requires forall g :: g in immuneSystem + infection ==> g.hitPoints > 0
      ensures Valid() && this.immuneSystem == immuneSystem && this.infection == infection
    {
      this.immuneSystem, this.infection := immuneSystem, infection;
      Repr := set g | g in immuneSystem + infection;
    }

    /** `select_targets`: each attacker, in choosing order, takes its best
        target among those no earlier attacker took. */
    static method SelectTargets(all: seq<Group>) returns (selected: seq<(Group, Group)>)
      ensures Matches(all, Selection(States(all)), selected)
    {
      var vs := States(all);
      var attackers := ChoosingOrder(vs);
      var targets := attackers;
      ghost var pairs: seq<(int, int)> := [];
      selected := [];
      for k := 0 to |attackers|
        invariant (pairs, targets) == Select(vs, attackers, k)
        invariant Matches(all, pairs, selected)
      {
        targets, pairs, selected := SelectOne(all, vs, attackers, k, targets, pairs, selected);
      }
    }

    /** One attacker's turn in `select_targets`. */
    static method SelectOne(all: seq<Group>, vs: seq<GroupState>, attackers: seq<int>, k: nat,
                            targets: seq<int>, ghost pairs: seq<(int, int)>, selected: seq<(Group, Group)>)
      returns (targets': seq<int>, ghost pairs': seq<(int, int)>, selected': seq<(Group, Group)>)
      requires vs == States(all) && k < |attackers| && Indices(attackers, |vs|)
      requires (pairs, targets) == Select(vs, attackers, k) && Matches(all, pairs, selected)
      ensures (pairs', targets') == Select(vs, attackers, k + 1) && Matches(all, pairs', selected')
    {
      var a := attackers[k];
      var best := Best(vs, a, targets);
      targets', pairs', selected' := targets, pairs, selected;
      if best.Some? {
        targets' := Delete(targets, best.value);
        MatchesAppend(all, pairs, selected, a, best.value);
        selected' := selected + [(all[a], all[best.value])];
        pairs' := pairs + [(a, best.value)];
      }
    }

    /** One attack of `attack`: an attacker with units damages its target. */
    static method StrikeOnce(all: seq<Group>, attacker: Group, target: Group, ghost a: nat, ghost t: nat)
      requires Distinct(all) && a < |all| && t < |all| && attacker == all[a] && target == all[t]
      requires Healthy(States(all))
      modifies target
      ensures States(all) == Strike(old(States(all)), (a, t))
    {
      StatesAt(all);
      if attacker.units > 0 {
        var _ := target.TakeDamage(Damage(attacker.State(), target.State()));
        StatesAt(all);
        DistinctAt(all, t);
      }
    }

    /** `attack`: the selected pairs by decreasing initiative of the
        attacker, each at the current unit counts. */
    static method Attack(all: seq<Group>, selected: seq<(Group, Group)>, ghost pairs: seq<(int, int)>)
      requires Distinct(all) && Healthy(States(all)) && Matches(all, pairs, selected)
      modifies all
      ensures States(all) == Strikes(old(States(all)), pairs, AttackOrder(old(States(all)), pairs), |pairs|)
    {
      ghost var vs := States(all);
      AttackerKeysMatch(selected, all, pairs);
      var order := SortDesc(AttackerKeys(selected), |selected|);
      assert order == AttackOrder(vs, pairs);
      for k := 0 to |order|
        invariant States(all) == Strikes(vs, pairs, order, k)
      {
        var (attacker, target) := selected[order[k]];
        StrikeOnce(all, attacker, target, pairs[order[k]].0, pairs[order[k]].1);
      }
    }

    /** `fight`: target selection, then the attacks. */
    static method Fight(all: seq<Group>)
      requires Distinct(all) && Healthy(States(all))
      modifies all
      ensures States(all) == Attacks(old(States(all)))
    {
      ghost var vs := States(all);
      var selected := SelectTargets(all);
      Attack(all, selected, Selection(vs));
      assert States(all) == Attacks(vs);
    }

    /** The two `select!`s of `run`: groups without units leave. */
    method RemoveDead()
      requires Valid()
      modifies this
      ensures Valid() && Repr == old(Repr)
      ensures Armies() == (Alive(old(States(immuneSystem))), Alive(old(States(infection))))
    {
      var immune, infected := AliveGroups(immuneSystem), AliveGroups(infection);
      AliveGroupsStates(immuneSystem);
      AliveGroupsStates(infection);
      AliveGroupsKeepDistinct(immuneSystem, infection);
      immuneSystem, infection := immune, infected;
    }

    /** One pass of the loop of `run`. */
    method PlayRound()
      requires Valid()
      modifies this, Repr
      ensures Valid() && Repr == old(Repr)
      ensures Healthy(old(Armies()).0 + old(Armies()).1)
      ensures Armies() == Round(old(Armies()).0, old(Armies()).1)
    {
      ValidHealthy();
      StatesAppend(immuneSystem, infection);
      Fight(immuneSystem + infection);
      ghost var ws := States(immuneSystem + infection);
      StatesAppend(immuneSystem, infection);
      assert ws[..|immuneSystem|] == States(immuneSystem) && ws[|immuneSystem|..] == States(infection);
      RemoveDead();
    }

    /** `run` for at most `fuel` rounds: the units of the surviving army,
        or `None` when the fuel runs out first. */
    method Run(fuel: nat) returns (r: Option<nat>)
      requires Valid()
      modifies this, Repr
      ensures var (i, f) := old(Armies());
        Healthy(i + f) && r == match Battle(i, f, fuel)
          case None => None
          case Some((i', f')) => Some(Remaining(i', f'))
    {
      ValidHealthy();
      var left := PlayRounds(fuel);
      r := Result(left);
    }

    /** The loop of `run`: rounds until an army is gone or `fuel` rounds
        are played; `left` is the fuel that remains. */
    method PlayRounds(fuel: nat) returns (left: nat)
      requires Valid()
      modifies this, Repr
      ensures Valid() && Repr == old(Repr)
      ensures immuneSystem == [] || infection == [] || left == 0
      ensures Outcome(left) == old(Outcome(fuel))
    {
      ghost var outcome := Outcome(fuel);
      left := fuel;
      while immuneSystem != [] && infection != [] && left > 0
        invariant Valid() && Repr == old(Repr)
        invariant outcome == Outcome(left)
        decreases left
      {
        left := left - 1;
        BattleRound(left);
      }
    }

    /** The answer of `run` once the loop stops. */
    method Result(left: nat) returns (r: Option<nat>)
      requires Valid() && (immuneSystem == [] || infection == [] || left == 0)
      ensures r == match Outcome(left)
        case None => None
        case Some((i, f)) => Some(Remaining(i, f))
    {
      ValidHealthy();
      BattleOver(Armies().0, Armies().1, left);
      if immuneSystem != [] && infection != [] {
        r := None;
      } else if immuneSystem != [] {
        r := Some(SumUnits(States(immuneSystem)));
      } else {
        r := Some(SumUnits(States(infection)));
      }
    }

    /** How the battle from the current armies ends within `fuel` rounds. */
    ghost function Outcome(fuel: nat): Option<(seq<GroupState>, seq<GroupState>)>
      requires Valid()
      reads this, immuneSystem, infection
    {
      ValidHealthy();
      Battle(Armies().0, Armies().1, fuel)
    }

    /** A round of `run` takes the battle one step further. */
    method BattleRound(left: nat)
      requires Valid() && immuneSystem != [] && infection != []
      modifies this, Repr
      ensures Valid() && Repr == old(Repr)
      ensures Outcome(left) == old(Outcome(left + 1))
    {
      ghost var before := Armies();
      ValidHealthy();
      BattleStep(before.0, before.1, left + 1);
      PlayRound();
    }

    lemma ValidHealthy()
      requires Valid()
      ensures Healthy(Armies().0 + Armies().1)
    {
      StatesAppend(immuneSystem, infection);
      StatesAt(immuneSystem + infection);
      assert forall i :: 0 <= i < |immuneSystem + infection| ==> (immuneSystem + infection)[i] in Repr;
    }
  }
}
