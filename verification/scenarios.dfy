/** Concrete battles run through the entry points: a one-hit victory, an
    enemy area attack, and the three behaviours of the code that differ
    from what a reader of the menus might expect: the held targets survive
    `Cancel`, a killed player unit can leave the unit cursor past the end
    of the roster, and the enemy loop keeps running after a defeat. */
module Scenarios {
  import opened CSharp
  import opened Lists
  import opened Moves
  import opened Units
  import opened Ui
  import opened Sweep
  import opened Resolution
  import opened Battle
  import opened Turns
  import opened Controls
  import opened Invariant

  const Strike := Move("Strike", Damage, 10, Enemy, Single)
  const Quake := Move("Quake", Damage, 5, Enemy, All)
  const Bite := Move("Bite", Damage, 5, Enemy, Single)
  const Backfire := Move("Backfire", Damage, 10, Ally, All)

  /** A unit with health `health` out of `max`, a meter of 1.0 filled to
      `action`, a speed of 1.0, and the given moves. */
  function Fighter(max: Int32, health: Int32, action: real, moves: seq<Move>): Unit {
    Unit(UnitData(max, 1.0, 1.0), moves, health, action)
  }

  /** A battle in unit selection with the first player unit selected. */
  function Opening(units: map<Id, Unit>, players: seq<Id>, enemies: seq<Id>): Battle {
    Battle(units, players, enemies, Active, 0, [], -1, Ui(UnitSelect, 0, 0, false), Undecided)
  }

  /** With a single enemy, a running frame is the regeneration of the
      player side followed by that enemy's turn. */
  lemma SingleEnemyFrame(b: Battle, dt: real, rolls: seq<Roll>)
    requires Wired(b) && b.state == Active && |b.enemies| == 1
    ensures var b1 := b.(units := RegenAll(b.units, b.players, dt));
            Update(b, dt, rolls) == EnemyTurn(b1, b.enemies[0], dt, Draw(rolls, 0))
  {
    var b1 := b.(units := RegenAll(b.units, b.players, dt));
    var turn := EnemyTurn(b1, b.enemies[0], dt, Draw(rolls, 0));
    if turn.Ok? {
      assert EnemyLoop(turn.value, b.enemies, 1, dt, rolls) == turn;
    }
  }

  /** A ready player unit with a ten-point strike against a lone enemy of
      ten health: select it, select the strike, confirm the default
      target, and the enemy dies, leaves its roster, and the battle is
      won. */
  lemma OneHitVictory()
    ensures var b0 := Opening(map[0 := Fighter(10, 10, 1.0, [Strike]), 1 := Fighter(10, 10, 0.0, [Strike])], [0], [1]);
            && Select(b0).Ok?
            && var b1 := Select(b0).value;
               && b1.state == Paused && b1.ui.state == MoveSelect
               && Select(b1).Ok?
               && var b2 := Select(b1).value;
                  && b2.ui.state == TargetSelect && b2.targets == [1]
                  && Select(b2).Ok?
                  && var b3 := Select(b2).value;
                     && b3.units[1].health == 0 && b3.enemies == []
                     && b3.units[0].action == 0.0
                     && b3.state == Finished && b3.outcome == Victory
  {
    var b0 := Opening(map[0 := Fighter(10, 10, 1.0, [Strike]), 1 := Fighter(10, 10, 0.0, [Strike])], [0], [1]);
    var b1 := b0.(state := Paused, ui := Ui(MoveSelect, 0, 1, true));
    assert SetMoveList(b0.ui, [Strike]).numMoves == 1;
    assert Select(b0) == Ok(b1);
    var b2 := b1.(targets := [1], targetIndex := 0, ui := Ui(TargetSelect, 0, 1, true));
    assert PendingMove(b1) == Ok(Strike);
    assert Select(b1) == Ok(b2);
    var hit := Fighter(10, 0, 0.0, [Strike]);
    assert Hit(Strike, b2.units[1]) == hit;
    PerformSpec(Strike, [1], b2.units, [1]);
    assert Perform(Strike, [1], b2.units, [1]).roster == [];
  }

  /** The enemy turn of the area-attack scenario: the enemy fills its
      meter and takes five health from each player unit. */
  lemma QuakeTurn(b: Battle)
    requires Wired(b) && b.players == [0, 1] && b.state == Active
    requires b.units[0] == Fighter(10, 10, 0.5, [Strike]) && b.units[1] == Fighter(10, 10, 0.5, [Strike])
    requires 2 in b.units && b.units[2] == Fighter(10, 10, 0.5, [Quake])
    ensures EnemyTurn(b, 2, 0.5, Roll(0, 0)).Ok?
    ensures var r := EnemyTurn(b, 2, 0.5, Roll(0, 0)).value;
            && r.units[0].health == 5 && r.units[1].health == 5 && r.units[2].action == 0.0
            && r.players == [0, 1] && r.state == Active
  {
    var ready := Fighter(10, 10, 1.0, [Quake]);
    assert RegenAction(b.units[2], 0.5) == ready;
    var b1 := b.(units := b.units[2 := ready]);
    assert SelectRandomTargets(b1, 2, Quake, 0) == Ok([0, 1]);
    QuakeHitsBoth(b1);
  }

  /** The area attack itself: five points off each player unit, nobody
      dies, and the attacker's meter is emptied. */
  lemma QuakeHitsBoth(b: Battle)
    requires Wired(b) && b.players == [0, 1] && b.state == Active && 2 in b.units
    requires b.units[0] == Fighter(10, 10, 0.5, [Strike]) && b.units[1] == Fighter(10, 10, 0.5, [Strike])
    ensures var r := Act(b, 2, Quake, [0, 1]);
            && r.units[0].health == 5 && r.units[1].health == 5 && r.units[2].action == 0.0
            && r.players == [0, 1] && r.state == Active
  {
    PerformSpec(Quake, [0, 1], b.units, [0, 1]);
    assert Hit(Quake, b.units[0]).health == 5;
    assert Hit(Quake, b.units[1]).health == 5;
    assert !Kills(Quake, b.units[0]) && !Kills(Quake, b.units[1]);
  }

  /** An enemy that fills its meter during the frame hits both player
      units with a five-point area attack: both drop from ten to five
      health, both stay in the roster, and the battle goes on. */
  lemma AreaAttackLeavesBothAlive()
    ensures var b := Opening(map[0 := Fighter(10, 10, 0.0, [Strike]), 1 := Fighter(10, 10, 0.0, [Strike]),
                                 2 := Fighter(10, 10, 0.5, [Quake])], [0, 1], [2]);
            && Update(b, 0.5, [Roll(0, 0)]).Ok?
            && var r := Update(b, 0.5, [Roll(0, 0)]).value;
               && r.units[0].health == 5 && r.units[1].health == 5
               && r.players == [0, 1] && r.state == Active
               && r.units[2].action == 0.0
  {
    var b := Opening(map[0 := Fighter(10, 10, 0.0, [Strike]), 1 := Fighter(10, 10, 0.0, [Strike]),
                         2 := Fighter(10, 10, 0.5, [Quake])], [0, 1], [2]);
    var b1 := b.(units := RegenAll(b.units, b.players, 0.5));
    RegenAllOnce(b.units, b.players, 0.5);
    assert b1.units[0] == RegenAction(b.units[0], 0.5) == Fighter(10, 10, 0.5, [Strike]);
    assert b1.units[1] == RegenAction(b.units[1], 0.5) == Fighter(10, 10, 0.5, [Strike]);
    assert b1.units[2] == b.units[2];
    QuakeTurn(b1);
    SingleEnemyFrame(b, 0.5, [Roll(0, 0)]);
  }

  /** `Cancel` in target selection keeps the held targets; the next
      `Select` in move selection resolves the targets afresh, whatever
      the held list and target cursor were. */
  lemma CancelKeepsTargetsReselectIgnoresThem(b: Battle, held: seq<Id>, index: int)
    requires Inv(b) && b.state != Finished && b.ui.state == TargetSelect
    requires AllIn(held, b.units)
    ensures Cancel(b).Ok?
    ensures var c := Cancel(b).value;
            && c.targets == b.targets && c.ui.state == MoveSelect && c.state == Paused
            && Select(c).Ok?
            && Select(c) == Select(c.(targets := held, targetIndex := index))
  {
    CancelInv(b);
    var c := Cancel(b).value;
    SelectFaults(c);
  }

  /** A five-point bite on a unit with at most five health kills it and
      takes it out of a roster without repeats, wherever it stands. */
  lemma BitePrunes(units: map<Id, Unit>, roster: seq<Id>, victim: nat)
    requires AllIn(roster, units) && NoDup(roster) && victim < |roster|
    requires 0 <= units[roster[victim]].health <= 5 && units[roster[victim]].data.maxHealth == 10
    ensures var r := Perform(Bite, [roster[victim]], units, roster);
            && r.roster == roster[..victim] + roster[victim + 1..]
            && r.units[roster[victim]].health == 0
            && forall id :: id in units && id != roster[victim] ==> r.units[id] == units[id]
  {
    var p := roster[victim];
    assert Kills(Bite, units[p]);
    PerformSpec(Bite, [p], units, roster);
    assert Killed(HitBy(Bite), DiesBy(Bite), units, [p]) == {p};
    WithoutAt(roster, victim);
  }

  /** A ready enemy with a five-point bite, drawing the player unit at
      `victim` of the roster, kills it when it has at most five health:
      the unit leaves the player roster and nothing else changes but the
      two units involved. */
  lemma BiteKills(b: Battle, victim: nat)
    requires Wired(b) && NoDup(b.players) && victim < |b.players|
    requires 2 in b.units && 2 !in b.players
    requires b.units[2] == Fighter(10, 10, 1.0, [Bite])
    requires 0 <= b.units[b.players[victim]].health <= 5 && b.units[b.players[victim]].data.maxHealth == 10
    ensures EnemyTurn(b, 2, 0.0, Roll(0, victim)).Ok?
    ensures var r := EnemyTurn(b, 2, 0.0, Roll(0, victim)).value;
            && r.players == b.players[..victim] + b.players[victim + 1..]
            && r.units[b.players[victim]].health == 0
            && forall id :: id in b.units && id != 2 && id != b.players[victim] ==> r.units[id] == b.units[id]
  {
    assert RegenAction(b.units[2], 0.0) == b.units[2];
    assert b.units[2 := b.units[2]] == b.units;
    assert SelectRandomTargets(b, 2, Bite, victim) == Ok([b.players[victim]]);
    BitePrunes(b.units, b.players, victim);
  }

  /** A lone ready enemy bites the last player unit, under the unit
      cursor, and kills it. The cursor is not moved back, so it now points
      one past the end of the roster and the next `Select` throws. */
  lemma KillUnderCursor(b: Battle)
    requires Wired(b) && NoDup(b.players) && b.state == Active && b.ui.state == UnitSelect
    requires b.enemies == [2] && 2 !in b.players && b.units[2] == Fighter(10, 10, 1.0, [Bite])
    requires |b.players| > 1 && b.selectedUnit == |b.players| - 1
    requires forall id :: id in b.players ==> InRange(b.units[id])
    requires b.units[b.players[b.selectedUnit]].health <= 5 && b.units[b.players[b.selectedUnit]].data.maxHealth == 10
    ensures Update(b, 0.0, [Roll(0, b.selectedUnit)]).Ok?
    ensures var r := Update(b, 0.0, [Roll(0, b.selectedUnit)]).value;
            && r.players == b.players[..b.selectedUnit] && r.selectedUnit == |r.players|
            && r.state == Active
            && Select(r) == Err(ArgumentOutOfRange)
  {
    var victim: nat := b.selectedUnit;
    ZeroFrameRegen(b.units, b.players);
    assert b.(units := b.units) == b;
    SingleEnemyFrame(b, 0.0, [Roll(0, victim)]);
    assert b.players[victim] in b.players;
    BiteKills(b, victim);
    assert b.players[victim + 1..] == [];
    assert b.players[..victim] + b.players[victim + 1..] == b.players[..victim];
    var r := EnemyTurn(b, 2, 0.0, Roll(0, victim)).value;
    assert SelectedUnit(r) == Err(ArgumentOutOfRange);
  }

  /** The stale-cursor scenario: two player units, the second one weak
      and under the unit cursor, and a ready enemy whose bite draws it. */
  lemma StaleUnitCursor()
    ensures var b := Opening(map[0 := Fighter(10, 10, 0.0, [Strike]), 1 := Fighter(10, 5, 0.0, [Strike]),
                                 2 := Fighter(10, 10, 1.0, [Bite])], [0, 1], [2]).(selectedUnit := 1);
            && Update(b, 0.0, [Roll(0, 1)]).Ok?
            && Update(b, 0.0, [Roll(0, 1)]).value.players == [0]
            && Select(Update(b, 0.0, [Roll(0, 1)]).value) == Err(ArgumentOutOfRange)
  {
    var b := Opening(map[0 := Fighter(10, 10, 0.0, [Strike]), 1 := Fighter(10, 5, 0.0, [Strike]),
                         2 := Fighter(10, 10, 1.0, [Bite])], [0, 1], [2]).(selectedUnit := 1);
    KillUnderCursor(b);
  }

  /** A ready enemy whose only move is a single-target bite throws once
      the player roster is empty: the draw indexes an empty list. */
  lemma BiteOnNoOne(b: Battle)
    requires Wired(b) && b.players == [] && 3 in b.units
    requires b.units[3] == Fighter(10, 10, 1.0, [Bite])
    ensures EnemyTurn(b, 3, 0.0, Roll(0, 0)) == Err(ArgumentOutOfRange)
  {
    assert RegenAction(b.units[3], 0.0) == b.units[3];
    assert b.units[3 := b.units[3]] == b.units;
    assert SelectRandomTargets(b, 3, Bite, 0) == Err(ArgumentOutOfRange);
  }

  /** Two ready enemies bite the lone player unit. The first bite kills
      it and ends the battle in defeat, but the loop goes on: the second
      enemy draws a target from the empty player roster and throws. */
  lemma LoopRunsAfterDefeat()
    ensures var b := Opening(map[0 := Fighter(10, 5, 0.0, [Strike]), 2 := Fighter(10, 10, 1.0, [Bite]),
                                 3 := Fighter(10, 10, 1.0, [Bite])], [0], [2, 3]);
            Update(b, 0.0, [Roll(0, 0), Roll(0, 0)]) == Err(ArgumentOutOfRange)
  {
    var b := Opening(map[0 := Fighter(10, 5, 0.0, [Strike]), 2 := Fighter(10, 10, 1.0, [Bite]),
                         3 := Fighter(10, 10, 1.0, [Bite])], [0], [2, 3]);
    ZeroFrameRegen(b.units, b.players);
    assert Update(b, 0.0, [Roll(0, 0), Roll(0, 0)]) == EnemyLoop(b, [2, 3], 0, 0.0, [Roll(0, 0), Roll(0, 0)]);
    BiteThenThrow(b);
  }

  /** The enemy loop of two ready biters over a lone weakened player unit:
      the first bite kills it, and the second enemy's draw throws. */
  lemma BiteThenThrow(b: Battle)
    requires Wired(b) && b.players == [0] && 2 in b.units && 3 in b.units
    requires b.units[2] == Fighter(10, 10, 1.0, [Bite]) && b.units[3] == Fighter(10, 10, 1.0, [Bite])
    requires 0 <= b.units[0].health <= 5 && b.units[0].data.maxHealth == 10
    ensures EnemyLoop(b, [2, 3], 0, 0.0, [Roll(0, 0), Roll(0, 0)]) == Err(ArgumentOutOfRange)
  {
    BiteKills(b, 0);
    var r := EnemyTurn(b, 2, 0.0, Roll(0, 0)).value;
    assert r.players == [] && r.units[3] == b.units[3];
    BiteOnNoOne(r);
    assert EnemyLoop(b, [2, 3], 0, 0.0, [Roll(0, 0), Roll(0, 0)]) == EnemyLoop(r, [2, 3], 1, 0.0, [Roll(0, 0), Roll(0, 0)]);
  }

  /** A damage move aimed at the player's own side kills an ally: the dead
      ally leaves the held targets but stays in the player roster, since
      only the enemy roster is pruned on the player's side. */
  lemma FriendlyFireKeepsAllyInRoster()
    ensures var b := Opening(map[0 := Fighter(20, 20, 1.0, [Backfire]), 1 := Fighter(10, 10, 0.0, [Strike]),
                                 2 := Fighter(10, 10, 0.0, [Strike])], [0, 1], [2]);
            && Select(b).Ok? && Select(Select(b).value).Ok? && Select(Select(Select(b).value).value).Ok?
            && var r := Select(Select(Select(b).value).value).value;
               && r.units[0].health == 10 && r.units[1].health == 0
               && r.players == [0, 1] && r.enemies == [2] && r.targets == [0]
               && r.state == Active
  {
    var b := Opening(map[0 := Fighter(20, 20, 1.0, [Backfire]), 1 := Fighter(10, 10, 0.0, [Strike]),
                         2 := Fighter(10, 10, 0.0, [Strike])], [0, 1], [2]);
    var b1 := b.(state := Paused, ui := Ui(MoveSelect, 0, 1, true));
    assert SetMoveList(b.ui, [Backfire]).numMoves == 1;
    assert Select(b) == Ok(b1);
    var b2 := b1.(targets := [0, 1], targetIndex := -1, ui := Ui(TargetSelect, 0, 1, true));
    assert PendingMove(b1) == Ok(Backfire);
    assert Select(b1) == Ok(b2);
    assert Hit(Backfire, b2.units[0]).health == 10;
    assert Hit(Backfire, b2.units[1]).health == 0;
    PerformSpec(Backfire, [0, 1], b2.units, [2]);
    var applied := Perform(Backfire, [0, 1], b2.units, [2]);
    assert applied.targets == [0] by {
      assert Without([0, 1], Killed(HitBy(Backfire), DiesBy(Backfire), b2.units, [0, 1])) == [0];
    }
    assert applied.roster == [2] by {
      assert Without([2], Killed(HitBy(Backfire), DiesBy(Backfire), b2.units, [0, 1])) == [2];
    }
  }
}
