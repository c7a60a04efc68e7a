/** What one `Update` promises about the enemy side: every enemy that is
    ready acts with one of its own moves and is left not ready, and the
    battle is lost exactly when the player roster has been emptied. */
module UpdateFacts {
  import opened Lists
  import opened Units
  import opened Sweep
  import opened Battle
  import opened Turns

  /** Every unit must fill a positive meter before it may act. */
  predicate PositiveMeters(units: map<Id, Unit>) {
    forall id :: id in units ==> units[id].data.maxActionValue > 0.0
  }

  /** An enemy that is ready after regenerating acts once, with a move
      from its own list and targets that are units of the battle. */
  lemma EnemyActsWithOwnMove(b: Battle, actor: Id, dt: real, roll: Roll)
    requires Wired(b) && actor in b.units
    requires IsActionReady(RegenAction(b.units[actor], dt))
    requires EnemyTurn(b, actor, dt, roll).Ok?
    ensures var b1 := b.(units := b.units[actor := RegenAction(b.units[actor], dt)]);
            exists m, ts | m in b.units[actor].moves && AllIn(ts, b1.units) :: EnemyTurn(b, actor, dt, roll).value == Act(b1, actor, m, ts)
  {
    var u := RegenAction(b.units[actor], dt);
    var b1 := b.(units := b.units[actor := u]);
    var m := GetRandomMoveData(u, roll.move).value;
    var ts := SelectRandomTargets(b1, actor, m, roll.target).value;
    assert EnemyTurn(b, actor, dt, roll).value == Act(b1, actor, m, ts);
  }

  /** After its turn an enemy is not ready, and no other unit's meter
      moved. */
  lemma EnemyTurnSettles(b: Battle, actor: Id, dt: real, roll: Roll)
    requires Wired(b) && actor in b.units
    requires b.units[actor].data.maxActionValue > 0.0
    requires EnemyTurn(b, actor, dt, roll).Ok?
    ensures var r := EnemyTurn(b, actor, dt, roll).value;
            && !IsActionReady(r.units[actor])
            && forall id :: id in b.units && id != actor ==> r.units[id].action == b.units[id].action
  {
  }

  /** The enemy loop from position `k` leaves every enemy it visits not
      ready and every other meter where it was. */
  lemma {:induction false} EnemyLoopSettles(b: Battle, order: seq<Id>, k: nat, dt: real, rolls: seq<Roll>)
    requires Wired(b) && AllIn(order, b.units) && k <= |order|
    requires NoDup(order)
    requires PositiveMeters(b.units)
    requires EnemyLoop(b, order, k, dt, rolls).Ok?
    ensures var r := EnemyLoop(b, order, k, dt, rolls).value;
            && (forall j :: k <= j < |order| ==> !IsActionReady(r.units[order[j]]))
            && (forall id :: id in b.units && id !in order[k..] ==> r.units[id].action == b.units[id].action)
    decreases |order| - k
  {
    if k < |order| {
      var actor := order[k];
      var b' := EnemyTurn(b, actor, dt, Draw(rolls, k)).value;
      EnemyTurnSettles(b, actor, dt, Draw(rolls, k));
      EnemyLoopSettles(b', order, k + 1, dt, rolls);
      var r := EnemyLoop(b', order, k + 1, dt, rolls).value;
      NoDupSuffix(order, k);
      assert r.units[actor].action == b'.units[actor].action;
    }
  }

  /** After `Update` no enemy is left ready: each one that filled its
      meter acted and was reset within the same frame. */
  lemma NoEnemyLeftReady(b: Battle, dt: real, rolls: seq<Roll>)
    requires Wired(b) && NoDup(b.enemies)
    requires PositiveMeters(b.units)
    requires b.state == Active
    requires Update(b, dt, rolls).Ok?
    ensures var r := Update(b, dt, rolls).value;
            forall id :: id in r.enemies ==> !IsActionReady(r.units[id])
  {
    var b1 := b.(units := RegenAll(b.units, b.players, dt));
    EnemyLoopSettles(b1, b1.enemies, 0, dt, rolls);
    var r := Update(b, dt, rolls).value;
    forall id | id in r.enemies ensures !IsActionReady(r.units[id]) {
      var j :| 0 <= j < |b.enemies| && b.enemies[j] == id;
    }
  }

  /** An enemy turn moves no meter but the acting enemy's. */
  lemma EnemyTurnKeepsOthers(b: Battle, actor: Id, dt: real, roll: Roll)
    requires Wired(b) && actor in b.units
    requires EnemyTurn(b, actor, dt, roll).Ok?
    ensures var r := EnemyTurn(b, actor, dt, roll).value;
            forall id :: id in b.units && id != actor ==> r.units[id].action == b.units[id].action
  {
  }

  /** The enemy loop from position `k` moves no meter of a unit it does not
      visit. */
  lemma {:induction false} EnemyLoopKeepsOthers(b: Battle, order: seq<Id>, k: nat, dt: real, rolls: seq<Roll>)
    requires Wired(b) && AllIn(order, b.units) && k <= |order|
    requires EnemyLoop(b, order, k, dt, rolls).Ok?
    ensures var r := EnemyLoop(b, order, k, dt, rolls).value;
            forall id :: id in b.units && id !in order[k..] ==> r.units[id].action == b.units[id].action
    decreases |order| - k
  {
    if k < |order| {
      var b' := EnemyTurn(b, order[k], dt, Draw(rolls, k)).value;
      EnemyTurnKeepsOthers(b, order[k], dt, Draw(rolls, k));
      EnemyLoopKeepsOthers(b', order, k + 1, dt, rolls);
      var r := EnemyLoop(b', order, k + 1, dt, rolls).value;
      assert EnemyLoop(b, order, k, dt, rolls).value == r;
      forall id | id in b.units && id !in order[k..] ensures r.units[id].action == b.units[id].action {
        assert order[k] == order[k..][0];
        assert order[k + 1..] == order[k..][1..];
      }
    }
  }

  /** A running frame regenerates every player unit exactly once: the enemy
      turns that follow may change its health but never its meter. */
  lemma UpdateRegeneratesPlayers(b: Battle, dt: real, rolls: seq<Roll>)
    requires Wired(b) && NoDup(b.players)
    requires forall id :: id in b.players ==> id !in b.enemies
    requires b.state == Active
    requires Update(b, dt, rolls).Ok?
    ensures var r := Update(b, dt, rolls).value;
            forall id :: id in b.players ==> r.units[id].action == RegenAction(b.units[id], dt).action
  {
    var b1 := b.(units := RegenAll(b.units, b.players, dt));
    RegenAllOnce(b.units, b.players, dt);
    EnemyLoopKeepsOthers(b1, b1.enemies, 0, dt, rolls);
    assert b1.enemies[0..] == b1.enemies;
  }

  /** The defeat bookkeeping of the enemy loop: the battle is running or
      lost, and it is lost exactly when the player roster is empty. */
  predicate DefeatTracked(b: Battle) {
    && (b.state == Active || b.state == Finished)
    && (b.state == Finished <==> |b.players| == 0)
    && (b.state == Finished ==> b.outcome == Defeat)
  }

  lemma EnemyTurnTracksDefeat(b: Battle, actor: Id, dt: real, roll: Roll)
    requires Wired(b) && actor in b.units
    requires DefeatTracked(b)
    requires EnemyTurn(b, actor, dt, roll).Ok?
    ensures DefeatTracked(EnemyTurn(b, actor, dt, roll).value)
  {
    var r := EnemyTurn(b, actor, dt, roll).value;
    if |r.players| > 0 {
      assert r.players[0] in r.players;
    }
  }

  lemma {:induction false} EnemyLoopTracksDefeat(b: Battle, order: seq<Id>, k: nat, dt: real, rolls: seq<Roll>)
    requires Wired(b) && AllIn(order, b.units) && k <= |order|
    requires DefeatTracked(b)
    requires EnemyLoop(b, order, k, dt, rolls).Ok?
    ensures DefeatTracked(EnemyLoop(b, order, k, dt, rolls).value)
    decreases |order| - k
  {
    if k < |order| {
      EnemyTurnTracksDefeat(b, order[k], dt, Draw(rolls, k));
      EnemyLoopTracksDefeat(EnemyTurn(b, order[k], dt, Draw(rolls, k)).value, order, k + 1, dt, rolls);
    }
  }

  /** A running frame ends the battle in defeat exactly when the enemies
      have emptied the player roster, and never in victory. */
  lemma UpdateDefeat(b: Battle, dt: real, rolls: seq<Roll>)
    requires Wired(b)
    requires b.state == Active && |b.players| > 0
    requires Update(b, dt, rolls).Ok?
    ensures var r := Update(b, dt, rolls).value;
            && (r.state == Finished <==> |r.players| == 0)
            && (r.state == Finished ==> r.outcome == Defeat)
            && (r.state != Finished ==> r.state == Active && r.outcome == b.outcome)
  {
    var b1 := b.(units := RegenAll(b.units, b.players, dt));
    EnemyLoopTracksDefeat(b1, b1.enemies, 0, dt, rolls);
    OutcomeKept(b1, b1.enemies, 0, dt, rolls);
  }

  /** While the battle is running the loop leaves the outcome alone. */
  lemma {:induction false} OutcomeKept(b: Battle, order: seq<Id>, k: nat, dt: real, rolls: seq<Roll>)
    requires Wired(b) && AllIn(order, b.units) && k <= |order|
    requires EnemyLoop(b, order, k, dt, rolls).Ok?
    ensures var r := EnemyLoop(b, order, k, dt, rolls).value;
            r.state != Finished ==> r.outcome == b.outcome
    decreases |order| - k
  {
    if k < |order| {
      var b' := EnemyTurn(b, order[k], dt, Draw(rolls, k)).value;
      OutcomeKept(b', order, k + 1, dt, rolls);
      if b'.state == Finished {
        FinishedStays(b', order, k + 1, dt, rolls);
      }
    }
  }

  /** Once lost, the battle stays lost for the rest of the loop. */
  lemma {:induction false} FinishedStays(b: Battle, order: seq<Id>, k: nat, dt: real, rolls: seq<Roll>)
    requires Wired(b) && AllIn(order, b.units) && k <= |order|
    requires b.state == Finished
    requires EnemyLoop(b, order, k, dt, rolls).Ok?
    ensures EnemyLoop(b, order, k, dt, rolls).value.state == Finished
    decreases |order| - k
  {
    if k < |order| {
      FinishedStays(EnemyTurn(b, order[k], dt, Draw(rolls, k)).value, order, k + 1, dt, rolls);
    }
  }
}
