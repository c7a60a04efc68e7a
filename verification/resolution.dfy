/** Applying a move to a list of targets: `PerformMove` on the player side
    and `PerformEnemyMove` on the enemy side. Both are the reverse loop of
    `Sweep` with a unit's hit given by the move's effect, and a target dies
    when a damage move leaves it at zero health. They differ only in which
    roster a dead unit is removed from, so the roster is a parameter here. */
module Resolution {
  import opened CSharp
  import opened Lists
  import opened Moves
  import opened Units
  import opened Sweep

  /** The effect of a move on one target; `Block` does nothing. */
  function Hit(move: Move, u: Unit): (r: Unit)
    ensures r == u.(health := r.health)
    ensures 0 <= u.health <= u.data.maxHealth ==> 0 <= r.health <= u.data.maxHealth
    ensures move.effect == Damage ==> r == TakeDamage(u, move.value)
    ensures move.effect == Heal ==> r == HealHealth(u, move.value)
    ensures move.effect == Block ==> r == u
  {
    match move.effect
    case Damage => TakeDamage(u, move.value)
    case Heal => HealHealth(u, move.value)
    case Block => u
  }

  /** The death test made right after the hit: only the damage branch removes a
      unit, and only when its health is then zero. */
  function DiesBy(move: Move): Unit -> bool {
    (u: Unit) => move.effect == Damage && u.health == 0
  }

  function HitBy(move: Move): Unit -> Unit {
    (u: Unit) => Hit(move, u)
  }

  /** The move kills the unit. */
  predicate Kills(move: Move, u: Unit) {
    move.effect == Damage && Hit(move, u).health == 0
  }

  /** `units'` differs from `units` in health values only. */
  predicate HealthOnly(units: map<Id, Unit>, units': map<Id, Unit>) {
    && units'.Keys == units.Keys
    && forall id :: id in units ==> units'[id] == units[id].(health := units'[id].health)
  }

  /** The loop over the whole held list, from its last index down. */
  function Perform(move: Move, targets: seq<Id>, units: map<Id, Unit>, roster: seq<Id>): (r: Swept<Unit>)
    requires AllIn(targets, units)
    ensures HealthOnly(units, r.units)
    ensures forall id :: id in units && id !in targets ==> r.units[id] == units[id]
    ensures AllIn(r.targets, r.units)
    ensures forall id :: id in r.targets ==> id in targets
    ensures forall id :: id in r.roster ==> id in roster
  {
    RunFrame(HitBy(move), DiesBy(move), |targets| - 1, targets, units, roster);
    RunHealthOnly(move, |targets| - 1, targets, units, roster);
    Run(HitBy(move), DiesBy(move), |targets| - 1, targets, units, roster)
  }

  /** However often a unit is listed, the loop changes health values only. */
  lemma {:induction false} RunHealthOnly(move: Move, i: int, targets: seq<Id>, units: map<Id, Unit>, roster: seq<Id>)
    requires -1 <= i < |targets|
    requires AllIn(targets, units)
    ensures HealthOnly(units, Run(HitBy(move), DiesBy(move), i, targets, units, roster).units)
    decreases i + 1
  {
    if i >= 0 {
      var id := targets[i];
      var v := Hit(move, units[id]);
      if DiesBy(move)(v) {
        RunHealthOnly(move, i - 1, RemoveFirst(targets, id), units[id := v], RemoveFirst(roster, id));
      } else {
        RunHealthOnly(move, i - 1, targets, units[id := v], roster);
      }
    }
  }

  /** The units the move kills are exactly the targets it kills. */
  lemma KilledByMove(move: Move, targets: seq<Id>, units: map<Id, Unit>)
    requires AllIn(targets, units)
    ensures forall id :: id in Killed(HitBy(move), DiesBy(move), units, targets)
                         <==> id in targets && Kills(move, units[id])
  {
  }

  /** What one move does when no unit is listed twice: every target is hit
      exactly once, the killed targets leave the held list and the roster,
      and the survivors of both keep their relative order. */
  lemma PerformSpec(move: Move, targets: seq<Id>, units: map<Id, Unit>, roster: seq<Id>)
    requires AllIn(targets, units)
    requires NoDup(targets)
    requires NoDup(roster)
    ensures var r := Perform(move, targets, units, roster);
            && (forall id :: id in targets ==> r.units[id] == Hit(move, units[id]))
            && (forall id :: id in r.targets <==> id in targets && !Kills(move, units[id]))
            && (forall id :: id in r.roster <==> id in roster && !(id in targets && Kills(move, units[id])))
            && NoDup(r.targets) && NoDup(r.roster)
            && HealthOnly(units, r.units)
            && var k := Killed(HitBy(move), DiesBy(move), units, targets);
               r.targets == Without(targets, k) && r.roster == Without(roster, k)
  {
    RunAll(HitBy(move), DiesBy(move), targets, units, roster);
    KilledByMove(move, targets, units);
    var k := Killed(HitBy(move), DiesBy(move), units, targets);
    WithoutNoDup(targets, k);
    WithoutNoDup(roster, k);
  }

  /** A heal or a block never shortens the held list or the roster, even
      when a unit is listed twice; a block changes nothing at all. */
  lemma {:induction false} NonDamageRemovesNothing(move: Move, i: int, targets: seq<Id>, units: map<Id, Unit>, roster: seq<Id>)
    requires -1 <= i < |targets|
    requires AllIn(targets, units)
    requires move.effect != Damage
    ensures var r := Run(HitBy(move), DiesBy(move), i, targets, units, roster);
            r.targets == targets && r.roster == roster && (move.effect == Block ==> r.units == units)
    decreases i + 1
  {
    if i >= 0 {
      var id := targets[i];
      var units' := units[id := Hit(move, units[id])];
      assert !DiesBy(move)(Hit(move, units[id]));
      assert move.effect == Block ==> units' == units;
      NonDamageRemovesNothing(move, i - 1, targets, units', roster);
    }
  }
}
