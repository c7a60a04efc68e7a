/** The four player entry points of the controller: `Select`, `Cancel`,
    `NavigateUp` and `NavigateDown`. Each is ignored once the battle is
    over and otherwise dispatches on the UI state. */
module Controls {
  import opened CSharp
  import opened Cursor
  import opened Moves
  import opened Units
  import opened Ui
  import opened Sweep
  import opened Resolution
  import opened Battle

  /** `_playerUnits[_selectedUnit]`: the list indexer throws once the
      cursor points past the end of a roster that shrank under it. */
  function SelectedUnit(b: Battle): (r: Result<Id>)
    ensures r.Ok? <==> 0 <= b.selectedUnit < |b.players|
    ensures r.Ok? ==> r.value == b.players[b.selectedUnit]
  {
    At(b.players, b.selectedUnit)
  }

  /** `_playerUnits[_selectedUnit].GetMoveData(_uiManager.SelectedMove)`:
      the move under the move cursor of the selected unit. */
  function PendingMove(b: Battle): (r: Result<Move>)
    requires Wired(b)
    ensures r.Ok? <==> 0 <= b.selectedUnit < |b.players| && 0 <= b.ui.selectedMove < |b.units[b.players[b.selectedUnit]].moves|
    ensures r.Ok? ==> r.value == b.units[b.players[b.selectedUnit]].moves[b.ui.selectedMove]
  {
    var p :- SelectedUnit(b);
    GetMoveData(b.units[p], b.ui.selectedMove)
  }

  /** `Select` in unit selection: a selected unit that is not ready is
      ignored; a ready one pauses the battle and opens its move list. */
  function SelectUnit(b: Battle): (r: Result<Battle>)
    requires Wired(b)
    ensures r.Ok? <==> && 0 <= b.selectedUnit < |b.players|
                       && (IsActionReady(b.units[b.players[b.selectedUnit]])
                           ==> |b.units[b.players[b.selectedUnit]].moves| > 0 || b.ui.panelOpen)
    ensures r.Ok? && !IsActionReady(b.units[b.players[b.selectedUnit]]) ==> r.value == b
    ensures r.Ok? && IsActionReady(b.units[b.players[b.selectedUnit]])
            ==> && r.value.state == Paused && r.value.ui.state == MoveSelect
                && r.value.ui.numMoves == Min(|b.units[b.players[b.selectedUnit]].moves|, MoveSlots)
                && r.value.ui.panelOpen
                && (!b.ui.panelOpen ==> r.value.ui.selectedMove == 0)
                && (b.ui.panelOpen ==> r.value.ui.selectedMove == b.ui.selectedMove)
                && r.value == b.(state := r.value.state, ui := r.value.ui)
  {
    var p :- SelectedUnit(b);
    if !IsActionReady(b.units[p]) then Ok(b)
    else
      var ui :- SetState(SetMoveList(b.ui, b.units[p].moves), MoveSelect);
      Ok(b.(state := Paused, ui := ui))
  }

  /** `Select` in move selection: the targets of the move under the cursor
      are resolved and the target menu opens. */
  function SelectMove(b: Battle): (r: Result<Battle>)
    requires Wired(b)
    ensures r.Ok? <==> PendingMove(b).Ok? && GetTargets(b, PendingMove(b).value).Ok?
    ensures r.Ok? ==> var t := GetTargets(b, PendingMove(b).value).value;
                      r.value == t.(ui := r.value.ui) && r.value.ui.state == TargetSelect
    ensures r.Ok? ==> r.value.ui == b.ui.(state := TargetSelect, panelOpen := true)
  {
    var move :- PendingMove(b);
    var b' :- GetTargets(b, move);
    Ok(b'.(ui := SetState(b'.ui, TargetSelect).value))
  }

  /** `Select` in target selection: the move is applied to the held
      targets, the dead leave the enemy roster only, the acting unit's
      meter is emptied, the battle resumes in unit selection, and it is
      won if no enemy is left. The held list is not cleared. */
  function SelectTarget(b: Battle): (r: Result<Battle>)
    requires Wired(b)
    ensures r.Ok? <==> PendingMove(b).Ok? && SetState(b.ui, UnitSelect).Ok?
    ensures r.Ok? ==> var applied := Perform(PendingMove(b).value, b.targets, b.units, b.enemies);
                      var p := b.players[b.selectedUnit];
                      && r.value.units == applied.units[p := ResetActionValue(applied.units[p])]
                      && r.value.enemies == applied.roster
                      && r.value.targets == applied.targets
                      && r.value.players == b.players
                      && r.value.ui.state == UnitSelect
                      && (r.value.state == Finished <==> |applied.roster| == 0)
                      && (r.value.state != Finished ==> r.value.state == Active && r.value.outcome == b.outcome)
                      && (r.value.state == Finished ==> r.value.outcome == Victory)
                      && r.value.selectedUnit == b.selectedUnit
                      && r.value.targetIndex == b.targetIndex
                      && r.value.ui == SetState(b.ui, UnitSelect).value
  {
    var move :- PendingMove(b);
    var p := b.players[b.selectedUnit];
    var applied := Perform(move, b.targets, b.units, b.enemies);
    var units := applied.units[p := ResetActionValue(applied.units[p])];
    var ui :- SetState(b.ui, UnitSelect);
    var b' := b.(units := units, enemies := applied.roster, targets := applied.targets, state := Active, ui := ui);
    Ok(if |b'.enemies| == 0 then EndBattle(b', true) else b')
  }

  /** `Select`. */
  function Select(b: Battle): (r: Result<Battle>)
    requires Wired(b)
    ensures b.state == Finished ==> r == Ok(b)
    ensures b.state != Finished && b.ui.state == UnitSelect ==> r == SelectUnit(b)
    ensures b.state != Finished && b.ui.state == MoveSelect ==> r == SelectMove(b)
    ensures b.state != Finished && b.ui.state == TargetSelect ==> r == SelectTarget(b)
    ensures r.Ok? ==> Wired(r.value)
  {
    if b.state == Finished then Ok(b)
    else
      match b.ui.state
      case UnitSelect => SelectUnit(b)
      case MoveSelect => SelectMove(b)
      case TargetSelect => SelectTarget(b)
  }

  /** `Cancel`: from move selection back to unit selection with the battle
      resumed; from target selection back to move selection with the
      battle still paused and the held targets kept; otherwise nothing. */
  function Cancel(b: Battle): (r: Result<Battle>)
    ensures b.state == Finished || b.ui.state == UnitSelect ==> r == Ok(b)
    ensures r.Ok? ==> r.value == b.(state := r.value.state, ui := r.value.ui)
    ensures b.state != Finished && b.ui.state == MoveSelect
            ==> && (r.Ok? <==> SetState(b.ui, UnitSelect).Ok?)
                && (r.Ok? ==> r.value.state == Active && r.value.ui == SetState(b.ui, UnitSelect).value)
    ensures b.state != Finished && b.ui.state == TargetSelect
            ==> && (r.Ok? <==> SetState(b.ui, MoveSelect).Ok?)
                && (r.Ok? ==> r.value.state == b.state && r.value.ui == SetState(b.ui, MoveSelect).value)
  {
    if b.state == Finished then Ok(b)
    else
      match b.ui.state
      case MoveSelect =>
        var ui :- SetState(b.ui, UnitSelect);
        Ok(b.(state := Active, ui := ui))
      case TargetSelect =>
        var ui :- SetState(b.ui, MoveSelect);
        Ok(b.(ui := ui))
      case UnitSelect => Ok(b)
  }

  /** `MovePlayerUnitSelector`: the unit cursor steps cyclically through
      the player roster, and the unit under it is looked up. */
  function MoveUnitCursor(b: Battle, d: Direction): (r: Result<Battle>)
    ensures r.Ok? <==> |b.players| > 0 && 0 <= Step(b.selectedUnit, |b.players|, d).value
    ensures r.Ok? ==> r.value == b.(selectedUnit := Step(b.selectedUnit, |b.players|, d).value)
    ensures r.Ok? ==> 0 <= r.value.selectedUnit < |b.players|
  {
    var index :- Step(b.selectedUnit, |b.players|, d);
    var p :- At(b.players, index);
    Ok(b.(selectedUnit := index))
  }

  /** `NavigateUp` for `Up` and `NavigateDown` for `Down`. */
  function Navigate(b: Battle, d: Direction): (r: Result<Battle>)
    requires Wired(b)
    ensures b.state == Finished ==> r == Ok(b)
    ensures r.Ok? ==> r.value.units == b.units && r.value.players == b.players && r.value.enemies == b.enemies
    ensures r.Ok? ==> r.value.state == b.state && r.value.ui.state == b.ui.state
    ensures r.Ok? ==> Wired(r.value)
    ensures b.state != Finished && b.ui.state == UnitSelect ==> r == MoveUnitCursor(b, d)
    ensures b.state != Finished && b.ui.state == MoveSelect
            ==> var moved := SetSelectedMove(b.ui, b.ui.selectedMove + Delta(d));
                && (r.Ok? <==> moved.Ok?)
                && (r.Ok? ==> r.value == b.(ui := moved.value))
    ensures b.state != Finished && b.ui.state == TargetSelect
            ==> && (r.Ok? <==> PendingMove(b).Ok? && MoveCurrentTarget(b, PendingMove(b).value, d).Ok?)
                && (r.Ok? ==> r == MoveCurrentTarget(b, PendingMove(b).value, d))
  {
    if b.state == Finished then Ok(b)
    else
      match b.ui.state
      case UnitSelect => MoveUnitCursor(b, d)
      case MoveSelect =>
        var ui :- SetSelectedMove(b.ui, b.ui.selectedMove + Delta(d));
        Ok(b.(ui := ui))
      case TargetSelect =>
        var move :- PendingMove(b);
        MoveCurrentTarget(b, move, d)
  }
}
