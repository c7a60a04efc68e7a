/** The invariant of a running battle, and its preservation by every
    entry point. While the invariant holds, `Cancel` and navigation never
    throw, and `Select` throws only on the stale unit cursor or a ready
    unit without moves. */
module Invariant {
  import opened CSharp
  import opened Lists
  import opened Cursor
  import opened Moves
  import opened Units
  import opened Ui
  import opened Sweep
  import opened Resolution
  import opened Battle
  import opened Turns
  import opened Controls

  /** The rosters and held targets list no unit twice, and no unit is on
      both sides. */
  predicate Rosters(b: Battle) {
    && Wired(b)
    && NoDup(b.players) && NoDup(b.enemies) && NoDup(b.targets)
    && (forall id :: id in b.players ==> id !in b.enemies)
  }

  /** Every unit's meters lie within its definition's bounds. */
  predicate Meters(units: map<Id, Unit>) {
    forall id :: id in units ==> InRange(units[id])
  }

  /** While a menu is open the selected unit exists and the move cursor
      points into its listed moves. */
  predicate MenuOpen(b: Battle)
    requires Wired(b)
  {
    && 0 <= b.selectedUnit < |b.players|
    && b.ui.numMoves == Min(|b.units[b.players[b.selectedUnit]].moves|, MoveSlots)
    && 0 <= b.ui.selectedMove < b.ui.numMoves
  }

  /** The invariant. The battle is paused exactly while a menu is open;
      a battle still going has a unit on each side. */
  predicate Inv(b: Battle) {
    && Rosters(b)
    && Meters(b.units)
    && Consistent(b.ui)
    && (b.state == Paused <==> b.ui.state != UnitSelect)
    && (b.state != Finished ==> |b.players| > 0 && |b.enemies| > 0)
    && b.selectedUnit >= 0
    && b.targetIndex >= -1
    && (b.ui.state != UnitSelect ==> MenuOpen(b))
  }

  /** A scene whose rosters have no repeats, share no unit, are not empty,
      and whose units have sane bounds starts in the invariant, unless the
      move panel starts open. */
  lemma StartInv(units: map<Id, Unit>, players: seq<Id>, enemies: seq<Id>)
    requires AllIn(players, units) && AllIn(enemies, units)
    requires NoDup(players) && NoDup(enemies)
    requires forall id :: id in players ==> id !in enemies
    requires |players| > 0 && |enemies| > 0
    requires forall id :: id in units ==> 0 <= units[id].data.maxHealth && 0.0 <= units[id].data.maxActionValue
    ensures Start(units, players, enemies, false).Ok?
    ensures Inv(Start(units, players, enemies, false).value)
  {
    var b := Start(units, players, enemies, false).value;
    assert NoDup(b.targets);
    forall id | id in b.units ensures InRange(b.units[id]) {
      assert b.units[id] == Spawn(units[id].data, units[id].moves);
    }
  }

  // ---------------------------------------------------------------------
  // Select

  lemma SelectUnitInv(b: Battle)
    requires Inv(b) && b.state != Finished && b.ui.state == UnitSelect
    requires SelectUnit(b).Ok?
    ensures Inv(SelectUnit(b).value)
  {
  }

  lemma SelectMoveInv(b: Battle)
    requires Inv(b) && b.state != Finished && b.ui.state == MoveSelect
    requires SelectMove(b).Ok?
    ensures Inv(SelectMove(b).value)
  {
    var t := GetTargets(b, PendingMove(b).value).value;
    assert NoDup(t.targets);
  }

  /** Applying a move to targets without repeats keeps the meters in
      range and the rosters without repeats. */
  lemma PerformKeeps(move: Move, targets: seq<Id>, units: map<Id, Unit>, roster: seq<Id>)
    requires AllIn(targets, units) && NoDup(targets) && NoDup(roster)
    requires Meters(units)
    ensures var r := Perform(move, targets, units, roster);
            Meters(r.units) && NoDup(r.targets) && NoDup(r.roster)
  {
    PerformSpec(move, targets, units, roster);
  }

  lemma SelectTargetInv(b: Battle)
    requires Inv(b) && b.state != Finished && b.ui.state == TargetSelect
    requires SelectTarget(b).Ok?
    ensures Inv(SelectTarget(b).value)
  {
    PerformKeeps(PendingMove(b).value, b.targets, b.units, b.enemies);
  }

  /** `Select` preserves the invariant. */
  lemma SelectInv(b: Battle)
    requires Inv(b)
    requires Select(b).Ok?
    ensures Inv(Select(b).value)
  {
    if b.state != Finished {
      match b.ui.state
      case UnitSelect => SelectUnitInv(b);
      case MoveSelect => SelectMoveInv(b);
      case TargetSelect => SelectTargetInv(b);
    }
  }

  /** Under the invariant `Select` throws exactly when the unit cursor has
      fallen off the end of the player roster, or when the selected unit
      is ready but has no move to list. */
  lemma SelectFaults(b: Battle)
    requires Inv(b)
    ensures Select(b).Err?
        <==> && b.state != Finished && b.ui.state == UnitSelect
             && (|b.players| <= b.selectedUnit
                 || (IsActionReady(b.units[b.players[b.selectedUnit]]) && |b.units[b.players[b.selectedUnit]].moves| == 0))
  {
  }

  // ---------------------------------------------------------------------
  // Cancel

  /** `Cancel` never throws and preserves the invariant. */
  lemma CancelInv(b: Battle)
    requires Inv(b)
    ensures Cancel(b).Ok?
    ensures Inv(Cancel(b).value)
  {
  }

  // ---------------------------------------------------------------------
  // Navigation

  /** Navigation never throws and preserves the invariant. */
  lemma NavigateInv(b: Battle, d: Direction)
    requires Inv(b)
    ensures Navigate(b, d).Ok?
    ensures Inv(Navigate(b, d).value)
  {
    if b.state != Finished {
      match b.ui.state
      case UnitSelect =>
      case MoveSelect =>
      case TargetSelect =>
        var move := PendingMove(b).value;
        if move.count == Single && move.target != Self {
          MoveCurrentTargetSucceeds(b, move, d);
        }
    }
  }

  /** One step of the unit cursor and one back restore the battle. */
  lemma UnitCursorRoundTrip(b: Battle, d: Direction, e: Direction)
    requires Wired(b) && b.state != Finished && b.ui.state == UnitSelect && d != e
    requires 0 <= b.selectedUnit < |b.players|
    ensures Navigate(b, d).Ok?
    ensures Navigate(Navigate(b, d).value, e) == Ok(b)
  {
    StepInverse(b.selectedUnit, |b.players|);
  }

  /** One step of the move cursor and one back restore the battle. */
  lemma MoveCursorRoundTrip(b: Battle, d: Direction, e: Direction)
    requires Wired(b) && b.state != Finished && b.ui.state == MoveSelect && d != e
    requires 0 <= b.ui.selectedMove < b.ui.numMoves <= MoveSlots
    ensures Navigate(b, d).Ok?
    ensures Navigate(Navigate(b, d).value, e) == Ok(b)
  {
    MoveCursorInverse(b.ui, d, e);
  }

  /** One step of the target cursor and one back hold the same single
      target under the same index. */
  lemma TargetCursorRoundTrip(b: Battle, d: Direction, e: Direction)
    requires Wired(b) && b.state != Finished && b.ui.state == TargetSelect && d != e
    requires PendingMove(b).Ok?
    requires PendingMove(b).value.count == Single && PendingMove(b).value.target != Self
    requires 0 <= b.targetIndex < |CursorRoster(b, PendingMove(b).value)|
    ensures Navigate(b, d).Ok?
    ensures Navigate(Navigate(b, d).value, e).Ok?
    ensures var r := Navigate(Navigate(b, d).value, e).value;
            r.targetIndex == b.targetIndex && r.targets == [CursorRoster(b, PendingMove(b).value)[b.targetIndex]]
  {
    var move := PendingMove(b).value;
    TargetCursorInverse(b, move, d, e);
    var b' := MoveCurrentTarget(b, move, d).value;
    assert PendingMove(b') == PendingMove(b);
    assert CursorRoster(b', move) == CursorRoster(b, move);
  }

  /** Navigating one way and back restores the cursor of the open menu:
      the unit cursor and the move cursor come back to where they were, and
      a single target held under an in-range target cursor is held again. */
  lemma NavigateRoundTrip(b: Battle, d: Direction, e: Direction)
    requires Inv(b) && b.state != Finished && d != e
    requires b.ui.state == UnitSelect ==> b.selectedUnit < |b.players|
    requires b.ui.state == TargetSelect && PendingMove(b).value.count == Single && PendingMove(b).value.target != Self
             ==> 0 <= b.targetIndex < |CursorRoster(b, PendingMove(b).value)|
    ensures Navigate(b, d).Ok?
    ensures Navigate(Navigate(b, d).value, e).Ok?
    ensures var r := Navigate(Navigate(b, d).value, e).value;
            && (b.ui.state != TargetSelect ==> r == b)
            && r.targetIndex == b.targetIndex
            && r.targets == (if b.ui.state == TargetSelect && PendingMove(b).value.count == Single && PendingMove(b).value.target != Self
                             then [CursorRoster(b, PendingMove(b).value)[b.targetIndex]]
                             else b.targets)
  {
    match b.ui.state
    case UnitSelect =>
      UnitCursorRoundTrip(b, d, e);
    case MoveSelect =>
      MoveCursorRoundTrip(b, d, e);
    case TargetSelect =>
      var move := PendingMove(b).value;
      if move.count == Single && move.target != Self {
        TargetCursorRoundTrip(b, d, e);
      } else {
        assert Navigate(b, d) == Ok(b);
      }
  }

  // ---------------------------------------------------------------------
  // Update

  /** The invariant of a battle in the middle of the enemy loop: the
      invariant itself, with the battle either running in unit selection
      or lost. */
  predicate LoopInv(b: Battle) {
    && Inv(b)
    && b.ui.state == UnitSelect
    && (b.state == Active || b.state == Finished)
  }

  lemma ActInv(b: Battle, actor: Id, move: Move, targets: seq<Id>)
    requires LoopInv(b) && actor in b.units
    requires AllIn(targets, b.units) && NoDup(targets)
    ensures LoopInv(Act(b, actor, move, targets))
  {
    var applied := Perform(move, targets, b.units, b.players);
    PerformKeeps(move, targets, b.units, b.players);
  }

  /** Random targets never repeat a unit. */
  lemma RandomTargetsNoDup(b: Battle, actor: Id, move: Move, roll: nat)
    requires Rosters(b)
    requires SelectRandomTargets(b, actor, move, roll).Ok?
    ensures NoDup(SelectRandomTargets(b, actor, move, roll).value)
  {
  }

  lemma EnemyTurnInv(b: Battle, actor: Id, dt: real, roll: Roll)
    requires LoopInv(b) && actor in b.units
    requires EnemyTurn(b, actor, dt, roll).Ok?
    ensures LoopInv(EnemyTurn(b, actor, dt, roll).value)
  {
    var u := RegenAction(b.units[actor], dt);
    var b1 := b.(units := b.units[actor := u]);
    assert LoopInv(b1);
    if IsActionReady(u) {
      var move := GetRandomMoveData(u, roll.move).value;
      RandomTargetsNoDup(b1, actor, move, roll.target);
      ActInv(b1, actor, move, SelectRandomTargets(b1, actor, move, roll.target).value);
    }
  }

  lemma {:induction false} EnemyLoopInv(b: Battle, order: seq<Id>, k: nat, dt: real, rolls: seq<Roll>)
    requires LoopInv(b) && AllIn(order, b.units) && k <= |order|
    requires EnemyLoop(b, order, k, dt, rolls).Ok?
    ensures LoopInv(EnemyLoop(b, order, k, dt, rolls).value)
    decreases |order| - k
  {
    if k < |order| {
      EnemyTurnInv(b, order[k], dt, Draw(rolls, k));
      EnemyLoopInv(EnemyTurn(b, order[k], dt, Draw(rolls, k)).value, order, k + 1, dt, rolls);
    }
  }

  /** `Update` preserves the invariant whenever it does not throw. */
  lemma UpdateInv(b: Battle, dt: real, rolls: seq<Roll>)
    requires Inv(b)
    requires Update(b, dt, rolls).Ok?
    ensures Inv(Update(b, dt, rolls).value)
  {
    if b.state == Active {
      var b1 := b.(units := RegenAll(b.units, b.players, dt));
      assert LoopInv(b1);
      EnemyLoopInv(b1, b1.enemies, 0, dt, rolls);
    }
  }
}
