/** The reverse loop with in-place removal that both sides use to apply a
    move: walking a list of ids from its last index down to its first, each
    id's value is replaced by `hit` of it, and an id whose new value `dies`
    leaves the list being walked and a second list, the roster. The loop is
    stated over any value type, so that its proof is independent of what a
    hit does. */
module Sweep {
  import opened Lists

  type Id = nat

  /** Every id of `s` has a value. */
  predicate AllIn<U>(s: seq<Id>, units: map<Id, U>) {
    forall id :: id in s ==> id in units
  }

  /** The walked list, the values and the roster when the loop ends. */
  datatype Swept<U> = Swept(targets: seq<Id>, units: map<Id, U>, roster: seq<Id>)

  /** The loop from index `i` down: the id at `i` is hit, and if its new
      value dies, its first occurrence is removed from the walked list and
      from the roster while the loop goes on at `i - 1`. */
  function Run<U>(hit: U -> U, dies: U -> bool, i: int, targets: seq<Id>, units: map<Id, U>, roster: seq<Id>): Swept<U>
    requires -1 <= i < |targets|
    requires AllIn(targets, units)
    decreases i + 1
  {
    if i < 0 then Swept(targets, units, roster)
    else
      var id := targets[i];
      var v := hit(units[id]);
      if dies(v) then
        Run(hit, dies, i - 1, RemoveFirst(targets, id), units[id := v], RemoveFirst(roster, id))
      else
        Run(hit, dies, i - 1, targets, units[id := v], roster)
  }

  /** The keys stay, the values of ids outside the walked list are
      untouched, and both lists only lose elements. */
  lemma {:induction false} RunFrame<U>(hit: U -> U, dies: U -> bool, i: int, targets: seq<Id>, units: map<Id, U>, roster: seq<Id>)
    requires -1 <= i < |targets|
    requires AllIn(targets, units)
    ensures var r := Run(hit, dies, i, targets, units, roster);
            && r.units.Keys == units.Keys
            && (forall id :: id in units && id !in targets ==> r.units[id] == units[id])
            && (forall id :: id in r.targets ==> id in targets)
            && (forall id :: id in r.roster ==> id in roster)
    decreases i + 1
  {
    if i >= 0 {
      var id := targets[i];
      var v := hit(units[id]);
      if dies(v) {
        RunFrame(hit, dies, i - 1, RemoveFirst(targets, id), units[id := v], RemoveFirst(roster, id));
      } else {
        RunFrame(hit, dies, i - 1, targets, units[id := v], roster);
      }
    }
  }

  /** The values after each id of `s` was hit once. */
  function HitOn<U>(hit: U -> U, units: map<Id, U>, s: seq<Id>): map<Id, U> {
    map id | id in units :: if id in s then hit(units[id]) else units[id]
  }

  /** The ids of `s` whose hit value dies. */
  function Killed<U>(hit: U -> U, dies: U -> bool, units: map<Id, U>, s: seq<Id>): set<Id> {
    set id | id in s && id in units && dies(hit(units[id]))
  }

  /** The loop's result when the walked list is split into the part `pre`
      still to visit and the part `post` already visited: each id of `pre`
      is hit once, the dead ones are filtered out of `pre` where they stand,
      and exactly those leave the roster. */
  function Visited<U>(hit: U -> U, dies: U -> bool, pre: seq<Id>, post: seq<Id>, units: map<Id, U>, roster: seq<Id>): Swept<U> {
    var k := Killed(hit, dies, units, pre);
    Swept(Without(pre, k) + post, HitOn(hit, units, pre), Without(roster, k))
  }

  /** Hitting one more id extends the hit prefix by it. */
  lemma HitStep<U>(hit: U -> U, dies: U -> bool, units: map<Id, U>, rest: seq<Id>, id: Id)
    requires id in units
    requires id !in rest
    ensures var units' := units[id := hit(units[id])];
            && Killed(hit, dies, units', rest) == Killed(hit, dies, units, rest)
            && HitOn(hit, units', rest) == HitOn(hit, units, rest + [id])
            && Killed(hit, dies, units, rest + [id])
               == Killed(hit, dies, units, rest) + (if dies(hit(units[id])) then {id} else {})
  {
  }

  /** The dead of `rest + [id]` are the dead of `rest`, plus `id` if it
      dies. */
  lemma KilledSnoc<U>(hit: U -> U, dies: U -> bool, units: map<Id, U>, rest: seq<Id>, id: Id)
    requires id in units
    ensures Killed(hit, dies, units, rest + [id])
         == Killed(hit, dies, units, rest) + (if dies(hit(units[id])) then {id} else {})
  {
  }

  /** Filtering `rest + [id]` where only `id` may be new to the set. */
  lemma WithoutSnoc(rest: seq<Id>, id: Id, kRest: set<Id>, k: set<Id>)
    requires id !in rest
    requires k == kRest + (k - kRest)
    requires forall x :: x in k - kRest ==> x == id
    ensures Without(rest + [id], k) == Without(rest, kRest) + (if id in k then [] else [id])
  {
    WithoutConcat(rest, [id], k);
    WithoutIgnores(rest, kRest, k - kRest);
  }

  /** Loop invariant of `Run`: from any split point the loop reaches the
      reference result. */
  lemma {:induction false} RunFrom<U>(hit: U -> U, dies: U -> bool, pre: seq<Id>, post: seq<Id>, units: map<Id, U>, roster: seq<Id>)
    requires AllIn(pre + post, units)
    requires NoDup(pre)
    requires NoDup(roster)
    ensures Run(hit, dies, |pre| - 1, pre + post, units, roster) == Visited(hit, dies, pre, post, units, roster)
    decreases |pre|, 1
  {
    if |pre| == 0 {
      var k := Killed(hit, dies, units, pre);
      assert k == {};
      WithoutDisjoint(roster, k);
      assert HitOn(hit, units, pre) == units;
      assert pre + post == post;
    } else {
      var rest := pre[..|pre| - 1];
      var id := pre[|pre| - 1];
      assert pre == rest + [id];
      NoDupSnoc(rest, id);
      if dies(hit(units[id])) {
        RunKill(hit, dies, rest, id, post, units, roster);
      } else {
        RunKeep(hit, dies, rest, id, post, units, roster);
      }
    }
  }

  /** The step at which `id` dies: it leaves both lists where it stands. */
  lemma {:induction false} RunKill<U>(hit: U -> U, dies: U -> bool, rest: seq<Id>, id: Id, post: seq<Id>, units: map<Id, U>, roster: seq<Id>)
    requires AllIn(rest + [id] + post, units)
    requires NoDup(rest) && id !in rest
    requires NoDup(roster)
    requires dies(hit(units[id]))
    ensures Run(hit, dies, |rest|, rest + [id] + post, units, roster) == Visited(hit, dies, rest + [id], post, units, roster)
    decreases |rest| + 1, 0
  {
    KillUnfold(hit, dies, rest, id, post, units, roster);
    RemoveFirstNoDup(roster, id);
    RunFrom(hit, dies, rest, post, units[id := hit(units[id])], RemoveFirst(roster, id));
    KillVisited(hit, dies, rest, id, post, units, roster);
  }

  /** One iteration that kills `id` takes its first occurrence out of the
      walked list and the roster. */
  lemma KillUnfold<U>(hit: U -> U, dies: U -> bool, rest: seq<Id>, id: Id, post: seq<Id>, units: map<Id, U>, roster: seq<Id>)
    requires AllIn(rest + [id] + post, units)
    requires id !in rest
    requires dies(hit(units[id]))
    ensures AllIn(rest + post, units[id := hit(units[id])])
    ensures Run(hit, dies, |rest|, rest + [id] + post, units, roster)
         == Run(hit, dies, |rest| - 1, rest + post, units[id := hit(units[id])], RemoveFirst(roster, id))
  {
    assert (rest + [id] + post)[|rest|] == id;
    RemoveFirstSplit(rest, id, post);
  }

  /** The reference result is the same whether `id` is counted as hit and
      removed from the roster, or as still to visit. */
  lemma KillVisited<U>(hit: U -> U, dies: U -> bool, rest: seq<Id>, id: Id, post: seq<Id>, units: map<Id, U>, roster: seq<Id>)
    requires id in units && id !in rest
    requires NoDup(roster)
    requires dies(hit(units[id]))
    ensures Visited(hit, dies, rest, post, units[id := hit(units[id])], RemoveFirst(roster, id))
         == Visited(hit, dies, rest + [id], post, units, roster)
  {
    HitStep(hit, dies, units, rest, id);
    KillFilters(hit, dies, rest, id, units, roster);
  }

  /** Filtering by the dead of `rest` after removing a dying `id` is
      filtering by the dead of `rest + [id]`, for both lists. */
  lemma KillFilters<U>(hit: U -> U, dies: U -> bool, rest: seq<Id>, id: Id, units: map<Id, U>, roster: seq<Id>)
    requires id in units && id !in rest
    requires NoDup(roster)
    requires dies(hit(units[id]))
    ensures Without(rest, Killed(hit, dies, units, rest)) == Without(rest + [id], Killed(hit, dies, units, rest + [id]))
    ensures Without(RemoveFirst(roster, id), Killed(hit, dies, units, rest))
         == Without(roster, Killed(hit, dies, units, rest + [id]))
  {
    KilledSnoc(hit, dies, units, rest, id);
    var kRest := Killed(hit, dies, units, rest);
    var k := Killed(hit, dies, units, rest + [id]);
    assert k == {id} + kRest;
    WithoutSnoc(rest, id, kRest, k);
    RemoveFirstIsWithout(roster, id);
    WithoutWithout(roster, {id}, kRest);
  }

  /** The step at which `id` survives: both lists stay as they are. */
  lemma {:induction false} RunKeep<U>(hit: U -> U, dies: U -> bool, rest: seq<Id>, id: Id, post: seq<Id>, units: map<Id, U>, roster: seq<Id>)
    requires AllIn(rest + [id] + post, units)
    requires NoDup(rest) && id !in rest
    requires NoDup(roster)
    requires !dies(hit(units[id]))
    ensures Run(hit, dies, |rest|, rest + [id] + post, units, roster) == Visited(hit, dies, rest + [id], post, units, roster)
    decreases |rest| + 1, 0
  {
    KeepUnfold(hit, dies, rest, id, post, units, roster);
    RunFrom(hit, dies, rest, [id] + post, units[id := hit(units[id])], roster);
    KeepVisited(hit, dies, rest, id, post, units, roster);
  }

  /** One iteration that keeps `id` moves it from the part still to visit
      to the visited part. */
  lemma KeepUnfold<U>(hit: U -> U, dies: U -> bool, rest: seq<Id>, id: Id, post: seq<Id>, units: map<Id, U>, roster: seq<Id>)
    requires AllIn(rest + [id] + post, units)
    requires !dies(hit(units[id]))
    ensures AllIn(rest + ([id] + post), units[id := hit(units[id])])
    ensures Run(hit, dies, |rest|, rest + [id] + post, units, roster)
         == Run(hit, dies, |rest| - 1, rest + ([id] + post), units[id := hit(units[id])], roster)
  {
    assert (rest + [id] + post)[|rest|] == id;
    assert rest + ([id] + post) == rest + [id] + post;
  }

  /** The reference result is the same whether `id` is counted as hit and
      visited or as still to visit. */
  lemma KeepVisited<U>(hit: U -> U, dies: U -> bool, rest: seq<Id>, id: Id, post: seq<Id>, units: map<Id, U>, roster: seq<Id>)
    requires id in units && id !in rest
    requires !dies(hit(units[id]))
    ensures Visited(hit, dies, rest, [id] + post, units[id := hit(units[id])], roster)
         == Visited(hit, dies, rest + [id], post, units, roster)
  {
    HitStep(hit, dies, units, rest, id);
    KeepFilters(hit, dies, rest, id, post, units);
  }

  /** A surviving `id` is kept where it stands by the filter, and adds
      nothing to the dead. */
  lemma KeepFilters<U>(hit: U -> U, dies: U -> bool, rest: seq<Id>, id: Id, post: seq<Id>, units: map<Id, U>)
    requires id in units && id !in rest
    requires !dies(hit(units[id]))
    ensures Killed(hit, dies, units, rest + [id]) == Killed(hit, dies, units, rest)
    ensures Without(rest, Killed(hit, dies, units, rest)) + ([id] + post)
         == Without(rest + [id], Killed(hit, dies, units, rest + [id])) + post
  {
    KilledSnoc(hit, dies, units, rest, id);
    KeepWithout(rest, id, post, Killed(hit, dies, units, rest));
  }

  /** Filtering keeps an element outside the set where it stands. */
  lemma KeepWithout(rest: seq<Id>, id: Id, post: seq<Id>, k: set<Id>)
    requires id !in k
    ensures Without(rest, k) + ([id] + post) == Without(rest + [id], k) + post
  {
    WithoutConcat(rest, [id], k);
    assert Without([id], k) == [id];
  }

  /** The whole loop over a duplicate-free list agrees with its reference
      reading: every id is hit exactly once, the dead ones leave the walked
      list and the roster, and the survivors keep their order. */
  lemma RunAll<U>(hit: U -> U, dies: U -> bool, targets: seq<Id>, units: map<Id, U>, roster: seq<Id>)
    requires AllIn(targets, units)
    requires NoDup(targets)
    requires NoDup(roster)
    ensures var k := Killed(hit, dies, units, targets);
            Run(hit, dies, |targets| - 1, targets, units, roster)
            == Swept(Without(targets, k), HitOn(hit, units, targets), Without(roster, k))
  {
    assert targets + [] == targets;
    RunFrom(hit, dies, targets, [], units, roster);
    assert Without(targets, Killed(hit, dies, units, targets)) + [] == Without(targets, Killed(hit, dies, units, targets));
  }
}
